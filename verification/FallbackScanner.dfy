/** The fallback scanner of one chain: when the watcher falls behind, it reads the chain itself. */
module FallbackScanner {
  import opened Wrappers
  import opened Hex
  import opened Classify
  import opened Decimal
  import opened Jobs
  import opened StateMachine
  import opened WorkDiscovery
  import opened LogScan

  datatype ScannerChain = ScannerChain(chainId: nat, domain: nat, deployBlock: nat, confirmations: nat)

  datatype Progress = Progress(lastIndexedBlock: nat, lastIndexedBlockTimestamp: Option<int>)

  /** A log as the row the watcher would have indexed; None when it does not parse. */
  function ToIndexedShape(chainId: nat, log: Log): (r: Option<IndexedMessageSent>)
    ensures r.Some? ==> FaithfulRow(r.value) && r.value.blockNumber == log.blockNumber
  {
    if log.message.None? then None
    else
      var bytes := log.message.value;
      var header := DecodeMessageHeader(bytes);
      if header.None? then None
      else
        DecodersAgree(bytes);
        Some(IndexedMessageSent(DedupKey(log), chainId, header.value.sourceDomain, header.value.destinationDomain,
                                bytes, Keccak256(bytes), log.transactionHash, log.index, log.blockNumber))
  }

  /** `${transactionHash}:${index}`, the id the watcher gives the same log. */
  function DedupKey(log: Log): string { log.transactionHash + ":" + Show(log.index) }

  /**
   * A log parses when it carries whole bytes that cover the envelope of a message, and it then is the row the watcher
   * would have indexed: the two domains are the numbers at bytes 4 and 8 of the message.
   */
  lemma ShapedExactly(chainId: nat, log: Log)
    ensures ToIndexedShape(chainId, log).Some? <==>
              log.message.Some? && IsHexBytes(log.message.value) && |log.message.value| >= 2 + 2 * 148
    ensures ToIndexedShape(chainId, log).Some? ==>
              var bytes := log.message.value;
              ToIndexedShape(chainId, log).value
              == IndexedMessageSent(log.transactionHash + ":" + Show(log.index), chainId, HexVal(bytes[10..18]),
                                    HexVal(bytes[18..26]), bytes, Keccak256(bytes), log.transactionHash, log.index,
                                    log.blockNumber)
  {
    if ToIndexedShape(chainId, log).Some? {
      var bytes := log.message.value;
      assert Slice(bytes[2..], 8, 16) == bytes[10..18] && Slice(bytes[2..], 16, 24) == bytes[18..26];
    }
  }

  /** The id tells logs apart. */
  lemma DedupKeyInjective(l: Log, other: Log)
    requires DedupKey(l) == DedupKey(other)
    ensures l.transactionHash == other.transactionHash && l.index == other.index
  {
    SplitAtLastSeparator(l.transactionHash, Show(l.index), other.transactionHash, Show(other.index), ':');
    ShowInjective(l.index, other.index);
  }

  /** Every parseable log of the blocks lo to hi has a job row. */
  ghost predicate AllClaimed(chain: seq<Log>, chainId: nat, lo: int, hi: int, claimed: set<string>) {
    forall l :: l in chain && lo <= l.blockNumber <= hi && ToIndexedShape(chainId, l).Some? ==> DedupKey(l) in claimed
  }

  /** The first n logs, as far as they parse, have job rows. */
  ghost predicate FirstClaimed(chainId: nat, logs: seq<Log>, n: int, claimed: set<string>) {
    forall i :: 0 <= i < n <= |logs| && ToIndexedShape(chainId, logs[i]).Some? ==> DedupKey(logs[i]) in claimed
  }

  lemma OneMoreClaimed(chainId: nat, logs: seq<Log>, n: nat, before: set<string>, claimed: set<string>)
    requires n < |logs| && FirstClaimed(chainId, logs, n, before) && before <= claimed
    requires ToIndexedShape(chainId, logs[n]).Some? ==> DedupKey(logs[n]) in claimed
    ensures FirstClaimed(chainId, logs, n + 1, claimed)
  {
  }

  /** The windows tile the blocks between base and cursor, and all their messages have job rows. */
  ghost predicate Covered(chain: seq<Log>, chainId: nat, base: int, cursor: int, windows: seq<(int, int)>,
                          claimed: set<string>)
  {
    && base < cursor
    && Tiles(windows, base + 1, cursor - 1)
    && AllClaimed(chain, chainId, base + 1, cursor - 1, claimed)
  }

  /** Where a scan stands: the next block and the windows behind it. */
  datatype Position = Position(cursor: Option<int>, windows: seq<(int, int)>)

  /** One more window, from the old cursor to the confirmed head. */
  ghost predicate Extended(was: Position, safeHead: int, here: Position) {
    && was.cursor.Some? && was.cursor.value <= safeHead
    && here == Position(Some(safeHead + 1), was.windows + [(was.cursor.value, safeHead)])
  }

  /** What one scan does, given the chain head or the failure to read it: one more window, or nothing. */
  ghost predicate Advanced(was: Position, head: Option<nat>, confirmations: nat, ok: bool, here: Position) {
    && was.cursor.Some?
    && if head.None? then !ok && here == was
       else if was.cursor.value > head.value - confirmations then ok && here == was
       else if ok then Extended(was, head.value - confirmations, here)
       else here == was
  }

  lemma AdvancedTo(was: Position, head: nat, confirmations: nat, ok: bool, here: Position)
    requires was.cursor.Some? && was.cursor.value <= head - confirmations
    requires if ok then Extended(was, head - confirmations, here) else here == was
    ensures Advanced(was, Some(head), confirmations, ok, here)
  {
  }

  /** The messages of the logs that parse. */
  ghost function Shapes(chainId: nat, logs: seq<Log>): set<IndexedMessageSent> {
    set l | l in logs && ToIndexedShape(chainId, l).Some? :: ToIndexedShape(chainId, l).value
  }

  lemma ShapesGrow(chainId: nat, some: seq<Log>, all: seq<Log>)
    requires forall l :: l in some ==> l in all
    ensures Shapes(chainId, some) <= Shapes(chainId, all)
  {
  }

  lemma ShapeOf(chainId: nat, logs: seq<Log>, i: nat)
    requires i < |logs| && ToIndexedShape(chainId, logs[i]).Some?
    ensures {ToIndexedShape(chainId, logs[i]).value} <= Shapes(chainId, logs)
  {
    assert logs[i] in logs;
  }

  /** The messages of the blocks from `from` to the confirmed head, none when the head could not be read. */
  ghost function Confirmed(chainId: nat, chain: seq<Log>, from: int, head: Option<nat>, confirmations: nat)
    : set<IndexedMessageSent>
  {
    if head.None? then {} else Shapes(chainId, LogsIn(chain, from, head.value - confirmations))
  }

  /** A message behind the confirmation depth: of a log of the chain, no earlier than from. */
  ghost predicate IsConfirmed(chainId: nat, chain: seq<Log>, from: int, head: Option<nat>, confirmations: nat, m: IndexedMessageSent) {
    && head.Some? && from <= m.blockNumber <= head.value - confirmations
    && exists l :: l in chain && ToIndexedShape(chainId, l) == Some(m)
  }

  lemma ConfirmedExactly(chainId: nat, chain: seq<Log>, from: int, head: Option<nat>, confirmations: nat, m: IndexedMessageSent)
    ensures m in Confirmed(chainId, chain, from, head, confirmations)
       <==> IsConfirmed(chainId, chain, from, head, confirmations, m)
  {
    if head.Some? {
      LogsInRange(chain, from, head.value - confirmations);
    }
  }

  /** A scanner between two ticks. */
  datatype ScannerState = ScannerState(active: bool, position: Position, base: int)

  /** The watcher has indexed recently enough. */
  predicate WatcherFresh(progress: Option<Progress>, now: int, activateAfterMs: nat) {
    && progress.Some? && progress.value.lastIndexedBlockTimestamp.Some?
    && now - progress.value.lastIndexedBlockTimestamp.value <= activateAfterMs
  }

  /** The watcher has indexed everything the activation scanned. */
  predicate CaughtUp(cursor: Option<int>, progress: Option<Progress>, now: int, activateAfterMs: nat) {
    WatcherFresh(progress, now, activateAfterMs) && (cursor.None? || progress.value.lastIndexedBlock >= cursor.value)
  }

  /**
   * What one tick does to a scanner, given the watcher's progress, the time and the chain head. While it stays on, its
   * windows only grow at the end; when it comes on and the watcher has made progress, they start behind the last
   * indexed block.
   */
  ghost predicate ChainTick(was: ScannerState, progress: Option<Progress>, now: int, activateAfterMs: nat, head: Option<nat>,
                            confirmations: nat, ok: bool, here: ScannerState)
  {
    && here.active == (if was.active then !CaughtUp(was.position.cursor, progress, now, activateAfterMs)
                       else !WatcherFresh(progress, now, activateAfterMs))
    && (!here.active ==> ok)
    && (here.active && was.active && was.position.cursor.Some? ==>
          here.base == was.base && Advanced(was.position, head, confirmations, ok, here.position))
    && (here.active && !(was.active && was.position.cursor.Some?) ==>
          && Advanced(Position(Some(here.base + 1), []), head, confirmations, ok, here.position)
          && (progress.Some? ==> here.base == progress.value.lastIndexedBlock))
  }

  /** Switched over and, when there is something to scan, with a cursor. */
  ghost predicate Prepared(was: ScannerState, progress: Option<Progress>, now: int, activateAfterMs: nat, mid: ScannerState) {
    && mid.active == (if was.active then !CaughtUp(was.position.cursor, progress, now, activateAfterMs)
                      else !WatcherFresh(progress, now, activateAfterMs))
    && (mid.active && was.active && was.position.cursor.Some? ==> mid.position == was.position && mid.base == was.base)
    && (mid.active && !(was.active && was.position.cursor.Some?) ==>
          mid.position == Position(Some(mid.base + 1), []) && (progress.Some? ==> mid.base == progress.value.lastIndexedBlock))
  }

  lemma PreparedThenScanned(was: ScannerState, progress: Option<Progress>, now: int, activateAfterMs: nat, mid: ScannerState,
                            head: Option<nat>, confirmations: nat, ok: bool, here: ScannerState)
    requires Prepared(was, progress, now, activateAfterMs, mid)
    requires if mid.active then here == mid.(position := here.position) && Advanced(mid.position, head, confirmations, ok, here.position)
             else here == mid && ok
    ensures ChainTick(was, progress, now, activateAfterMs, head, confirmations, ok, here)
  {
  }

  /** Where a scan starts: at the old cursor, or behind the base of a new activation. */
  function FirstBlock(was: ScannerState, here: ScannerState): int {
    if was.active && was.position.cursor.Some? then was.position.cursor.value else here.base + 1
  }

  /** The messages one tick may claim: none when it ends inactive, else the confirmed ones from its first block on. */
  ghost function TickGains(c: ScannerChain, chain: seq<Log>, was: ScannerState, here: ScannerState, head: Option<nat>)
    : set<IndexedMessageSent>
  {
    if !here.active then {} else Confirmed(c.chainId, chain, FirstBlock(was, here), head, c.confirmations)
  }

  /** The node refused a call for a single block. */
  ghost predicate LastRefused(calls: seq<Call>) {
    calls != [] && RefusedBlock(calls[|calls| - 1], calls[|calls| - 1].from, calls[|calls| - 1].to)
  }

  class ChainScanner {
    const chain: ScannerChain
    const provider: ScanProvider
    const activateAfterMs: nat
    const chunkSize: nat
    var active: bool
    var cursor: Option<int> // next block to scan
    ghost var base: int // the block this activation's cursor started behind
    ghost var windows: seq<(int, int)> // the ranges scanned since

    constructor (chain: ScannerChain, provider: ScanProvider, activateAfterMs: nat, chunkSize: nat)
      ensures !active && cursor.None? && windows == []
      ensures this.chain == chain && this.provider == provider
      ensures this.activateAfterMs == activateAfterMs && this.chunkSize == chunkSize
    {
      this.chain, this.provider := chain, provider;
      this.activateAfterMs, this.chunkSize := activateAfterMs, chunkSize;
      active, cursor, base, windows := false, None, 0, [];
    }

    /** Behind the cursor nothing is missing: the windows tile (base, cursor) and all their logs are claimed. */
    ghost predicate Covers(claimed: set<string>)
      reads this
    {
      cursor.Some? ==> active && Covered(provider.chain, chain.chainId, base, cursor.value, windows, claimed)
    }

    ghost function Here(): Position
      reads this
    {
      Position(cursor, windows)
    }

    ghost function State(): ScannerState
      reads this
    {
      ScannerState(active, Here(), base)
    }

    /** Turns the scanner on or off; false when there is nothing to scan in this tick. */
    method SwitchOver(progress: Option<Progress>, now: int) returns (scan: bool)
      modifies this`active, this`cursor
      ensures scan == if old(active) then !CaughtUp(old(cursor), progress, now, activateAfterMs)
                      else !WatcherFresh(progress, now, activateAfterMs)
      ensures !scan <==>
              && progress.Some? && progress.value.lastIndexedBlockTimestamp.Some?
              && progress.value.lastIndexedBlockTimestamp.value >= now - activateAfterMs
              && (old(active) && old(cursor).Some? ==> progress.value.lastIndexedBlock >= old(cursor).value)
      ensures active == scan
      ensures cursor == if scan && old(active) then old(cursor) else if scan || old(active) then None else old(cursor)
    {
      if active {
        if CaughtUp(cursor, progress, now, activateAfterMs) {
          active, cursor := false, None;
          return false;
        }
      } else {
        if WatcherFresh(progress, now, activateAfterMs) {
          return false;
        }
        active, cursor := true, None;
      }
      return true;
    }

    /** The highest block claimed for the chain's domain, or the deploy block while nothing is claimed for it. */
    ghost predicate BehindClaims(rows: map<string, Job>, block: int) {
      && ((forall k :: k in rows ==> rows[k].sourceDomain != chain.domain) ==> block == chain.deployBlock)
      && (forall k :: k in rows && rows[k].sourceDomain == chain.domain ==>
            rows[k].sourceBlock <= block
            && exists x :: x in rows && rows[x].sourceDomain == chain.domain && rows[x].sourceBlock == block)
    }

    /** Behind the last indexed block, else behind the highest claimed block, else behind deployBlock. */
    method EnsureCursor(actor: Actor, progress: Option<Progress>)
      requires actor.repo.Valid() && active && Covers(actor.repo.rows.Keys)
      modifies this`cursor, this`base, this`windows
      ensures cursor.Some? && Covers(actor.repo.rows.Keys)
      ensures old(cursor).Some? ==> cursor == old(cursor) && base == old(base) && windows == old(windows)
      ensures old(cursor).None? ==> windows == [] && cursor == Some(base + 1)
      ensures old(cursor).None? && progress.Some? ==> base == progress.value.lastIndexedBlock
      ensures old(cursor).None? && progress.None? ==> BehindClaims(actor.repo.rows, base)
    {
      if cursor.None? {
        var claimed := actor.repo.MaxSourceBlock(chain.domain);
        var start := if progress.Some? then progress.value.lastIndexedBlock
                     else if claimed.Some? then claimed.value else chain.deployBlock;
        cursor, base, windows := Some(start + 1), start, [];
      }
    }

    /** Switches over and, when there is something to scan, makes sure there is a cursor. */
    method Steer(actor: Actor, progress: Option<Progress>, now: int) returns (scan: bool)
      requires actor.repo.Valid() && Covers(actor.repo.rows.Keys)
      modifies this
      ensures Covers(actor.repo.rows.Keys) && active == scan
      ensures Prepared(old(State()), progress, now, activateAfterMs, State()) && (scan ==> cursor.Some?)
    {
      scan := SwitchOver(progress, now);
      if scan {
        EnsureCursor(actor, progress);
      }
    }

    /** Reads the clock and switches over at that time. */
    method Prepare(actor: Actor, progress: Option<Progress>) returns (scan: bool, ghost now: int)
      requires actor.Valid() && Covers(actor.repo.rows.Keys)
      modifies this, actor`now, actor`pending, actor`trace
      ensures actor.Valid() && actor.pending == old(actor.pending) && old(actor.trace) <= actor.trace
      ensures Covers(actor.repo.rows.Keys) && active == scan
      ensures Prepared(old(State()), progress, now, activateAfterMs, State()) && (scan ==> cursor.Some?)
    {
      var t := actor.Now();
      now := t;
      scan := Steer(actor, progress, t);
    }

    method ClaimLog(actor: Actor, log: Log, received: set<(nat, string)>)
      requires actor.Valid() && actor.pending.Idle?
      modifies actor`now, actor`pending, actor`trace, actor.repo
      ensures actor.Valid() && actor.pending.Idle? && old(actor.trace) <= actor.trace
      ensures GainedFrom(actor.cfg, Shapes(chain.chainId, [log]), received, old(actor.repo.rows), actor.repo.rows)
      ensures ToIndexedShape(chain.chainId, log).Some? ==> DedupKey(log) in actor.repo.rows.Keys
    {
      var msg := ToIndexedShape(chain.chainId, log);
      ghost var before := actor.repo.rows;
      if msg.Some? {
        var _ := ClaimMessage(actor, msg.value, received);
        ShapeOf(chain.chainId, [log], 0);
        GainedJoin(actor.cfg, Shapes(chain.chainId, [log]), {}, {msg.value}, received, before, before, actor.repo.rows);
      }
    }

    method ClaimLogs(actor: Actor, logs: seq<Log>, received: set<(nat, string)>)
      requires actor.Valid() && actor.pending.Idle?
      modifies actor`now, actor`pending, actor`trace, actor.repo
      ensures actor.Valid() && actor.pending.Idle? && old(actor.trace) <= actor.trace
      ensures GainedFrom(actor.cfg, Shapes(chain.chainId, logs), received, old(actor.repo.rows), actor.repo.rows)
      ensures FirstClaimed(chain.chainId, logs, |logs|, actor.repo.rows.Keys)
    {
      ghost var all := Shapes(chain.chainId, logs);
      for i := 0 to |logs|
        invariant actor.Valid() && actor.pending.Idle? && old(actor.trace) <= actor.trace
        invariant GainedFrom(actor.cfg, all, received, old(actor.repo.rows), actor.repo.rows)
        invariant FirstClaimed(chain.chainId, logs, i, actor.repo.rows.Keys)
      {
        ghost var before := actor.repo.rows;
        ClaimLog(actor, logs[i], received);
        ShapesGrow(chain.chainId, [logs[i]], logs);
        GainedJoin(actor.cfg, all, all, Shapes(chain.chainId, [logs[i]]), received, old(actor.repo.rows), before, actor.repo.rows);
        OneMoreClaimed(chain.chainId, logs, i, before.Keys, actor.repo.rows.Keys);
      }
    }

    /** One window: its logs are read and claimed before the cursor moves past it. */
    method ScanWindow(actor: Actor, last: int, received: set<(nat, string)>) returns (ok: bool)
      requires actor.Valid() && actor.pending.Idle? && cursor.Some? && Covers(actor.repo.rows.Keys)
      requires chunkSize >= 1 && Ordered(provider.chain) && cursor.value <= last
      modifies this`cursor, this`windows, provider`calls, actor`now, actor`pending, actor`trace, actor.repo
      ensures actor.Valid() && actor.pending.Idle? && old(actor.trace) <= actor.trace
      ensures GainedFrom(actor.cfg, Shapes(chain.chainId, LogsIn(provider.chain, old(cursor).value, last)), received,
                         old(actor.repo.rows), actor.repo.rows)
      ensures Covers(actor.repo.rows.Keys)
      ensures if ok then Extended(old(Here()), last, Here()) else Here() == old(Here())
      ensures !ok ==> LastRefused(provider.calls)
    {
      var logs, made := GetLogsChunked(provider, cursor.value, last, chunkSize);
      if logs.Err? {
        return false;
      }
      ghost var before := actor.repo.rows;
      ClaimLogs(actor, logs.value, received);
      CoverExtends(provider.chain, chain.chainId, base, cursor.value, windows, last, logs.value, before.Keys,
                   actor.repo.rows.Keys);
      windows := windows + [(cursor.value, last)];
      cursor := Some(last + 1);
      return true;
    }

    /** Scans from the cursor to the confirmed head; a failed request leaves the cursor where it was. */
    method ScanToHead(actor: Actor, head: Option<nat>, received: set<(nat, string)>) returns (ok: bool)
      requires actor.Valid() && actor.pending.Idle? && cursor.Some? && Covers(actor.repo.rows.Keys)
      requires chunkSize >= 1 && Ordered(provider.chain)
      modifies this`cursor, this`windows, provider`calls, actor`now, actor`pending, actor`trace, actor.repo
      ensures actor.Valid() && actor.pending.Idle? && old(actor.trace) <= actor.trace
      ensures GainedFrom(actor.cfg, Confirmed(chain.chainId, provider.chain, old(cursor).value, head, chain.confirmations),
                         received, old(actor.repo.rows), actor.repo.rows)
      ensures head.None? || old(cursor).value > head.value - chain.confirmations ==> actor.repo.rows == old(actor.repo.rows)
      ensures Covers(actor.repo.rows.Keys) && Advanced(old(Here()), head, chain.confirmations, ok, Here())
      ensures !ok && head.Some? ==> LastRefused(provider.calls)
    {
      ghost var was := Here();
      NothingGained(actor.cfg, Confirmed(chain.chainId, provider.chain, cursor.value, head, chain.confirmations), received,
                    actor.repo.rows);
      if head.None? {
        return false;
      }
      var safeHead := head.value - chain.confirmations;
      if cursor.value > safeHead {
        return true;
      }
      ok := ScanWindow(actor, safeHead, received);
      AdvancedTo(was, head.value, chain.confirmations, ok, Here());
    }

    /** One tick; it fails only when the head could not be read or a single block was refused. */
    method TickChain(actor: Actor, progress: Option<Progress>, head: Option<nat>, received: set<(nat, string)>)
      returns (ok: bool, ghost now: int)
      requires actor.Valid() && actor.pending.Idle? && Covers(actor.repo.rows.Keys)
      requires chunkSize >= 1 && Ordered(provider.chain)
      modifies this, provider`calls, actor`now, actor`pending, actor`trace, actor.repo
      ensures actor.Valid() && actor.pending.Idle? && old(actor.trace) <= actor.trace
      ensures GainedFrom(actor.cfg, TickGains(chain, provider.chain, old(State()), State(), head), received,
                         old(actor.repo.rows), actor.repo.rows)
      ensures Covers(actor.repo.rows.Keys)
      ensures ChainTick(old(State()), progress, now, activateAfterMs, head, chain.confirmations, ok, State())
      ensures !ok ==> active && (head.None? || LastRefused(provider.calls))
      ensures !active ==> actor.repo.rows == old(actor.repo.rows)
    {
      var scan;
      scan, now := Prepare(actor, progress);
      ok := true;
      ghost var mid := State();
      if scan {
        ok := ScanToHead(actor, head, received);
      }
      PreparedThenScanned(old(State()), progress, now, activateAfterMs, mid, head, chain.confirmations, ok, State());
    }
  }

  /** Adding a scanned window whose logs were all claimed. */
  lemma WindowClaimed(chain: seq<Log>, chainId: nat, lo: int, from: int, last: int, logs: seq<Log>,
                      before: set<string>, claimed: set<string>)
    requires lo <= from <= last && logs == LogsIn(chain, from, last)
    requires AllClaimed(chain, chainId, lo, from - 1, before) && before <= claimed
    requires FirstClaimed(chainId, logs, |logs|, claimed)
    ensures AllClaimed(chain, chainId, lo, last, claimed)
  {
    LogsInRange(chain, from, last);
    forall l | l in chain && lo <= l.blockNumber <= last && ToIndexedShape(chainId, l).Some?
      ensures DedupKey(l) in claimed
    {
      if l.blockNumber >= from {
        assert l in logs;
        var i :| 0 <= i < |logs| && logs[i] == l;
      }
    }
  }

  /** A window whose logs were all claimed moves the cursor behind it. */
  lemma CoverExtends(chain: seq<Log>, chainId: nat, base: int, cursor: int, windows: seq<(int, int)>, last: int,
                     logs: seq<Log>, before: set<string>, claimed: set<string>)
    requires Covered(chain, chainId, base, cursor, windows, before) && before <= claimed
    requires cursor <= last && logs == LogsIn(chain, cursor, last)
    requires FirstClaimed(chainId, logs, |logs|, claimed)
    ensures Covered(chain, chainId, base, last + 1, windows + [(cursor, last)], claimed)
  {
    WindowClaimed(chain, chainId, base + 1, cursor, last, logs, before, claimed);
    assert (windows + [(cursor, last)])[..|windows|] == windows;
  }
}
