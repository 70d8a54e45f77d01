/** Fee quotes: one current and one previous schedule per chain, resolvable for a while after they expire. */
module FeeCalculator {
  import opened Wrappers
  import opened Decimal
  import opened FeeArithmetic

  datatype FeeKey = Transfer | Unshield | CrossContract | CrossChainShield | CrossChainUnshield | Shield | ShieldXchain

  function GasEstimate(key: FeeKey): nat {
    match key
    case Transfer => 500_000
    case Unshield => 500_000
    case CrossChainShield => 500_000
    case CrossChainUnshield => 500_000
    case CrossContract => 2_000_000
    case Shield => 300_000
    case ShieldXchain => 400_000
  }

  /** The tiers paid by a shielded note the pool charges its fee on. */
  predicate IsShieldTier(key: FeeKey) { key.Shield? || key.ShieldXchain? }

  /** What a regeneration read: the gas price and the ETH price in millionths of a dollar. */
  datatype Market = Market(gasPriceWei: nat, priceScaled: nat)

  datatype FeeOptions = FeeOptions(feeTtlSeconds: nat, bufferBps: nat, marginBps: nat, shieldFeeBps: nat)

  datatype FeeSchedule = FeeSchedule(cacheId: string, expiresAt: int, chainId: nat, market: Market, opts: FeeOptions)

  function NetFee(s: FeeSchedule, key: FeeKey): nat {
    ComputeFeeUsdcRaw(GasEstimate(key), s.market.gasPriceWei, s.market.priceScaled, s.opts.marginBps)
  }

  /** fees[key]; None when the gross-up throws, in which case no schedule is issued at all. */
  function Fee(s: FeeSchedule, key: FeeKey): Option<int> {
    if IsShieldTier(key) then GrossUpForShieldFee(NetFee(s, key), s.opts.shieldFeeBps) else Some(NetFee(s, key))
  }

  /** The seven published fees: four of 500000 gas, one of 2000000, and two grossed up, of 300000 and 400000. */
  lemma PublishedFees(s: FeeSchedule, key: FeeKey)
    ensures var fee := (gas: nat) => ComputeFeeUsdcRaw(gas, s.market.gasPriceWei, s.market.priceScaled, s.opts.marginBps);
            match key
            case Transfer => Fee(s, key) == Some(fee(500_000))
            case Unshield => Fee(s, key) == Some(fee(500_000))
            case CrossChainShield => Fee(s, key) == Some(fee(500_000))
            case CrossChainUnshield => Fee(s, key) == Some(fee(500_000))
            case CrossContract => Fee(s, key) == Some(fee(2_000_000))
            case Shield => Fee(s, key) == GrossUpForShieldFee(fee(300_000), s.opts.shieldFeeBps)
            case ShieldXchain => Fee(s, key) == GrossUpForShieldFee(fee(400_000), s.opts.shieldFeeBps)
  {
  }

  /** `fee-${chainId}-${now}-${counter}` */
  function CacheId(chainId: nat, now: nat, counter: nat): string {
    "fee-" + (Show(chainId) + ['-'] + (Show(now) + ['-'] + Show(counter)))
  }

  lemma CacheIdText(chainId: nat, now: nat, counter: nat)
    ensures CacheId(chainId, now, counter) == "fee-" + Show(chainId) + "-" + Show(now) + "-" + Show(counter)
  {
  }

  /** Ids of different quotes differ, and an id names its chain. */
  lemma CacheIdInjective(c: nat, t: nat, n: nat, c': nat, t': nat, n': nat)
    requires CacheId(c, t, n) == CacheId(c', t', n')
    ensures c == c' && t == t' && n == n'
  {
    var x, y := Show(t) + ['-'] + Show(n), Show(t') + ['-'] + Show(n');
    assert CacheId(c, t, n)[4..] == Show(c) + ['-'] + x;
    assert CacheId(c', t', n')[4..] == Show(c') + ['-'] + y;
    SplitAtSeparator(Show(c), x, Show(c'), y, '-');
    SplitAtSeparator(Show(t), Show(n), Show(t'), Show(n'), '-');
    ShowInjective(c, c');
    ShowInjective(t, t');
    ShowInjective(n, n');
  }

  /** now < expiresAt + ttl * bufferBps / 10000, multiplied out. */
  predicate QuoteLive(s: FeeSchedule, now: int) {
    (now - s.expiresAt) * 10_000 < s.opts.feeTtlSeconds * 1000 * s.opts.bufferBps
  }

  datatype Slot = Slot(current: Option<FeeSchedule>, previous: Option<FeeSchedule>)

  const NO_SLOT := Slot(None, None)

  function SlotOf(byChain: map<nat, Slot>, chainId: nat): Slot {
    if chainId in byChain then byChain[chainId] else NO_SLOT
  }

  /** A schedule that getSchedule returned at some time: the history of one chain, oldest first. */
  datatype Issue = Issue(schedule: FeeSchedule, readAt: nat, counter: nat)

  /** Schedules of this chain, each under an id of its own; the regenerations behind them may have overlapped. */
  ghost predicate Recorded(issues: seq<Issue>, chainId: nat, opts: FeeOptions) {
    && (forall i :: 0 <= i < |issues| ==>
          && issues[i].schedule.chainId == chainId && issues[i].schedule.opts == opts
          && issues[i].schedule.expiresAt == issues[i].readAt + opts.feeTtlSeconds * 1000
          && issues[i].schedule.cacheId == CacheId(chainId, issues[i].readAt, issues[i].counter))
    && (forall i, j :: 0 <= i < j < |issues| ==> issues[i].counter < issues[j].counter)
  }

  /** No overlap: each regeneration started only after the schedules before it had expired. */
  ghost predicate Spaced(issues: seq<Issue>) {
    forall i, j :: 0 <= i < j < |issues| ==> issues[i].schedule.expiresAt <= issues[j].readAt
  }

  ghost predicate Successive(issues: seq<Issue>, chainId: nat, opts: FeeOptions) {
    Recorded(issues, chainId, opts) && Spaced(issues)
  }

  /** The slot holds the last two issues. */
  ghost predicate HoldsLastTwo(slot: Slot, issues: seq<Issue>) {
    && slot.current == (if |issues| >= 1 then Some(issues[|issues| - 1].schedule) else None)
    && slot.previous == (if |issues| >= 2 then Some(issues[|issues| - 2].schedule) else None)
  }

  /** What is known about the history of one chain and its slot. */
  ghost predicate Consistent(slot: Slot, issues: seq<Issue>, chainId: nat, opts: FeeOptions, counter: nat, now: int) {
    && Recorded(issues, chainId, opts)
    && HoldsLastTwo(slot, issues)
    && forall i :: 0 <= i < |issues| ==> issues[i].counter <= counter && issues[i].readAt <= now
  }

  function NewSchedule(chainId: nat, readAt: nat, counter: nat, market: Market, opts: FeeOptions): FeeSchedule {
    FeeSchedule(CacheId(chainId, readAt, counter), readAt + opts.feeTtlSeconds * 1000, chainId, market, opts)
  }

  /** Installing a schedule, whenever its regeneration started. */
  lemma IssueAppended(slot: Slot, issues: seq<Issue>, chainId: nat, opts: FeeOptions, counter: nat, readAt: nat,
                      market: Market, now: int)
    requires Consistent(slot, issues, chainId, opts, counter, now) && readAt <= now
    ensures var s := NewSchedule(chainId, readAt, counter + 1, market, opts);
            Consistent(Slot(Some(s), slot.current), issues + [Issue(s, readAt, counter + 1)], chainId, opts, counter + 1, now)
  {
  }

  lemma StillConsistent(slot: Slot, issues: seq<Issue>, chainId: nat, opts: FeeOptions, counter: nat, now: int)
    requires Consistent(slot, issues, chainId, opts, counter, now)
    ensures Consistent(slot, issues, chainId, opts, counter + 1, now)
  {
  }

  function HistoryOf(issued: map<nat, seq<Issue>>, chainId: nat): seq<Issue> {
    if chainId in issued then issued[chainId] else []
  }

  ghost predicate AllConsistent(byChain: map<nat, Slot>, issued: map<nat, seq<Issue>>, opts: FeeOptions, counter: nat,
                                now: int)
  {
    forall c: nat :: Consistent(SlotOf(byChain, c), HistoryOf(issued, c), c, opts, counter, now)
  }

  lemma CounterMoves(byChain: map<nat, Slot>, issued: map<nat, seq<Issue>>, opts: FeeOptions, counter: nat, now: int)
    requires AllConsistent(byChain, issued, opts, counter, now)
    ensures AllConsistent(byChain, issued, opts, counter + 1, now)
  {
    forall c: nat ensures Consistent(SlotOf(byChain, c), HistoryOf(issued, c), c, opts, counter + 1, now) {
      StillConsistent(SlotOf(byChain, c), HistoryOf(issued, c), c, opts, counter, now);
    }
  }

  lemma ScheduleInstalled(byChain: map<nat, Slot>, issued: map<nat, seq<Issue>>, chainId: nat, opts: FeeOptions,
                          counter: nat, readAt: nat, market: Market, now: int)
    requires AllConsistent(byChain, issued, opts, counter, now) && readAt <= now
    ensures var s := NewSchedule(chainId, readAt, counter + 1, market, opts);
            AllConsistent(byChain[chainId := Slot(Some(s), SlotOf(byChain, chainId).current)],
                          issued[chainId := HistoryOf(issued, chainId) + [Issue(s, readAt, counter + 1)]],
                          opts, counter + 1, now)
  {
    var s := NewSchedule(chainId, readAt, counter + 1, market, opts);
    var slots := byChain[chainId := Slot(Some(s), SlotOf(byChain, chainId).current)];
    var histories := issued[chainId := HistoryOf(issued, chainId) + [Issue(s, readAt, counter + 1)]];
    assert Consistent(SlotOf(byChain, chainId), HistoryOf(issued, chainId), chainId, opts, counter, now);
    IssueAppended(SlotOf(byChain, chainId), HistoryOf(issued, chainId), chainId, opts, counter, readAt, market, now);
    CounterMoves(byChain, issued, opts, counter, now);
    forall c: nat ensures Consistent(SlotOf(slots, c), HistoryOf(histories, c), c, opts, counter + 1, now) {
      if c != chainId {
        assert SlotOf(slots, c) == SlotOf(byChain, c) && HistoryOf(histories, c) == HistoryOf(issued, c);
      }
    }
  }

  predicate Answers(s: Option<FeeSchedule>, cacheId: string, now: int) {
    s.Some? && s.value.cacheId == cacheId && QuoteLive(s.value, now)
  }

  /** Everything quoted so far: the slots, all schedules ever installed, and the number of regenerations. */
  datatype Quotes = Quotes(byChain: map<nat, Slot>, issued: map<nat, seq<Issue>>, counter: nat)

  const NOTHING_QUOTED := Quotes(map[], map[], 0)

  ghost predicate ConsistentQuotes(q: Quotes, opts: FeeOptions, now: int) {
    AllConsistent(q.byChain, q.issued, opts, q.counter, now)
  }

  /** The end of a regeneration started at readAt: a new schedule, unless the gross-up divides by zero. */
  function AfterRegenerate(q: Quotes, opts: FeeOptions, chainId: nat, readAt: nat, market: Market): Quotes {
    if opts.shieldFeeBps == 10_000 then q.(counter := q.counter + 1)
    else
      var s := NewSchedule(chainId, readAt, q.counter + 1, market, opts);
      Quotes(q.byChain[chainId := Slot(Some(s), SlotOf(q.byChain, chainId).current)],
             q.issued[chainId := HistoryOf(q.issued, chainId) + [Issue(s, readAt, q.counter + 1)]],
             q.counter + 1)
  }

  /** A regeneration starts when there is no current schedule or it has expired. */
  predicate DueForRegeneration(q: Quotes, chainId: nat, readAt: int) {
    SlotOf(q.byChain, chainId).current.Some? ==> SlotOf(q.byChain, chainId).current.value.expiresAt <= readAt
  }

  lemma RegenerationKeepsConsistent(q: Quotes, opts: FeeOptions, chainId: nat, readAt: nat, market: Market, now: int)
    requires ConsistentQuotes(q, opts, now) && readAt <= now
    ensures ConsistentQuotes(AfterRegenerate(q, opts, chainId, readAt, market), opts, now)
  {
    if opts.shieldFeeBps == 10_000 {
      CounterMoves(q.byChain, q.issued, opts, q.counter, now);
    } else {
      ScheduleInstalled(q.byChain, q.issued, chainId, opts, q.counter, readAt, market, now);
    }
  }

  /** A regeneration that started when the schedule it replaces had expired does not overlap with those before it. */
  lemma DueKeepsSpaced(q: Quotes, opts: FeeOptions, chainId: nat, readAt: nat, market: Market, now: int)
    requires ConsistentQuotes(q, opts, now) && DueForRegeneration(q, chainId, readAt)
    requires Spaced(HistoryOf(q.issued, chainId))
    ensures Spaced(HistoryOf(AfterRegenerate(q, opts, chainId, readAt, market).issued, chainId))
  {
    var issues, n := HistoryOf(q.issued, chainId), |HistoryOf(q.issued, chainId)|;
    assert Consistent(SlotOf(q.byChain, chainId), issues, chainId, opts, q.counter, now);
    forall i | 0 <= i < n ensures issues[i].schedule.expiresAt <= readAt {
      if i < n - 1 {
        assert issues[i].schedule.expiresAt <= issues[n - 1].readAt <= issues[n - 1].schedule.expiresAt;
      }
    }
  }

  lemma WaitingKeepsConsistent(q: Quotes, opts: FeeOptions, now: int, later: int)
    requires ConsistentQuotes(q, opts, now) && now <= later
    ensures ConsistentQuotes(q, opts, later)
  {
    forall c: nat ensures Consistent(SlotOf(q.byChain, c), HistoryOf(q.issued, c), c, opts, q.counter, later) {
      assert Consistent(SlotOf(q.byChain, c), HistoryOf(q.issued, c), c, opts, q.counter, now);
    }
  }

  /** The schedule was issued for this chain. */
  ghost predicate IssuedFor(q: Quotes, chainId: nat, s: FeeSchedule) {
    exists i :: 0 <= i < |HistoryOf(q.issued, chainId)| && HistoryOf(q.issued, chainId)[i].schedule == s
  }

  function Resolve(slot: Slot, cacheId: string, now: int): Option<FeeSchedule> {
    if Answers(slot.current, cacheId, now) then slot.current
    else if Answers(slot.previous, cacheId, now) then slot.previous
    else None
  }

  lemma OtherId(issues: seq<Issue>, chainId: nat, opts: FeeOptions, i: nat, j: nat)
    requires Recorded(issues, chainId, opts) && i < |issues| && j < |issues| && i != j
    ensures issues[i].schedule.cacheId != issues[j].schedule.cacheId
  {
    if issues[i].schedule.cacheId == issues[j].schedule.cacheId {
      CacheIdInjective(chainId, issues[i].readAt, issues[i].counter, chainId, issues[j].readAt, issues[j].counter);
    }
  }

  /** Overlapping or not: a live quote resolves exactly when fewer than two schedules were installed after it. */
  lemma ResolvesAmongLastTwo(slot: Slot, issues: seq<Issue>, chainId: nat, opts: FeeOptions, i: nat, now: int)
    requires Recorded(issues, chainId, opts) && HoldsLastTwo(slot, issues)
    requires i < |issues| && QuoteLive(issues[i].schedule, now)
    ensures Resolve(slot, issues[i].schedule.cacheId, now)
         == if |issues| - i <= 2 then Some(issues[i].schedule) else None
  {
    var n := |issues|;
    if i != n - 1 {
      OtherId(issues, chainId, opts, i, n - 1);
      if i != n - 2 {
        OtherId(issues, chainId, opts, i, n - 2);
      }
    }
  }

  lemma SlotRotates(issues: seq<Issue>, next: Issue, chainId: nat, opts: FeeOptions, was: Slot, i: nat, at: int)
    requires Recorded(issues + [next], chainId, opts) && HoldsLastTwo(was, issues) && i < |issues|
    ensures issues[i].schedule.cacheId != next.schedule.cacheId
    ensures Resolve(Slot(Some(next.schedule), was.current), issues[i].schedule.cacheId, at)
         == if i == |issues| - 1 then Resolve(was, issues[i].schedule.cacheId, at) else None
  {
    var grown, n := issues + [next], |issues|;
    assert grown[i] == issues[i] && grown[n] == next && grown[n - 1] == issues[n - 1];
    OtherId(grown, chainId, opts, i, n);
    if i < n - 1 {
      OtherId(grown, chainId, opts, i, n - 1);
    } else if n > 1 {
      assert grown[n - 2] == issues[n - 2];
      OtherId(grown, chainId, opts, i, n - 2);
    }
  }

  /** Through a regeneration of its chain the latest quote resolves exactly as it did, every older one no longer does. */
  lemma RegenerationRotates(q: Quotes, opts: FeeOptions, chainId: nat, readAt: nat, market: Market, now: int, i: nat, at: int)
    requires ConsistentQuotes(q, opts, now) && readAt <= now && opts.shieldFeeBps != 10_000
    requires i < |HistoryOf(q.issued, chainId)|
    ensures var issues, after := HistoryOf(q.issued, chainId), AfterRegenerate(q, opts, chainId, readAt, market);
            Resolve(SlotOf(after.byChain, chainId), issues[i].schedule.cacheId, at)
            == if i == |issues| - 1 then Resolve(SlotOf(q.byChain, chainId), issues[i].schedule.cacheId, at) else None
  {
    var issues, was := HistoryOf(q.issued, chainId), SlotOf(q.byChain, chainId);
    var next := Issue(NewSchedule(chainId, readAt, q.counter + 1, market, opts), readAt, q.counter + 1);
    assert Consistent(was, issues, chainId, opts, q.counter, now);
    IssueAppended(was, issues, chainId, opts, q.counter, readAt, market, now);
    SlotRotates(issues, next, chainId, opts, was, i, at);
  }

  /**
   * Three requests for the fees of a chain that has no schedule yet, all before the first of them is answered: once
   * the last one is, the quote the first was answered with does not resolve at any time, whatever the buffer is.
   */
  lemma OverlapDropsLiveQuote(opts: FeeOptions, chainId: nat, at: nat, a: Market, b: Market, c: Market, now: int)
    requires opts.feeTtlSeconds > 0 && opts.shieldFeeBps != 10_000
    ensures DueForRegeneration(NOTHING_QUOTED, chainId, at)
    ensures var first := AfterRegenerate(NOTHING_QUOTED, opts, chainId, at, a);
            var last := AfterRegenerate(AfterRegenerate(first, opts, chainId, at, b), opts, chainId, at, c);
            var quote := SlotOf(first.byChain, chainId).current;
            && quote.Some? && QuoteLive(quote.value, at)
            && Resolve(SlotOf(last.byChain, chainId), quote.value.cacheId, now).None?
  {
    if CacheId(chainId, at, 1) == CacheId(chainId, at, 2) { CacheIdInjective(chainId, at, 1, chainId, at, 2); }
    if CacheId(chainId, at, 1) == CacheId(chainId, at, 3) { CacheIdInjective(chainId, at, 1, chainId, at, 3); }
  }

  lemma OlderIssuesAreDead(issues: seq<Issue>, chainId: nat, opts: FeeOptions, i: nat, now: int)
    requires Successive(issues, chainId, opts) && opts.bufferBps <= 10_000 && opts.feeTtlSeconds > 0
    requires i < |issues| - 2 && issues[|issues| - 1].readAt <= now
    ensures !QuoteLive(issues[i].schedule, now)
  {
    var a, b, c := issues[i], issues[|issues| - 2], issues[|issues| - 1];
    assert a.schedule.expiresAt <= b.readAt && b.schedule.expiresAt <= c.readAt;
    var ttl := opts.feeTtlSeconds * 1000;
    assert now - a.schedule.expiresAt >= ttl;
    MulMonotone(opts.bufferBps, 10_000, ttl, ttl);
    assert opts.feeTtlSeconds * 1000 * opts.bufferBps == opts.bufferBps * ttl;
  }

  /** A live quote is still in the slot, and no other quote goes by its id. */
  lemma LiveQuoteResolves(slot: Slot, issues: seq<Issue>, chainId: nat, opts: FeeOptions, i: nat, now: int)
    requires Successive(issues, chainId, opts) && HoldsLastTwo(slot, issues)
    requires opts.bufferBps <= 10_000 && opts.feeTtlSeconds > 0
    requires i < |issues| && issues[|issues| - 1].readAt <= now && QuoteLive(issues[i].schedule, now)
    ensures Resolve(slot, issues[i].schedule.cacheId, now) == Some(issues[i].schedule)
  {
    if i < |issues| - 2 {
      OlderIssuesAreDead(issues, chainId, opts, i, now);
    }
    ResolvesAmongLastTwo(slot, issues, chainId, opts, i, now);
  }

  /**
   * Without overlap a quote resolves at time now exactly when it was issued for this chain under this id and its
   * window is still open: keeping only the previous schedule never drops a live quote.
   */
  lemma ResolvesExactlyLiveQuotes(slot: Slot, issues: seq<Issue>, chainId: nat, opts: FeeOptions, cacheId: string, now: int,
                                  s: FeeSchedule)
    requires Successive(issues, chainId, opts) && HoldsLastTwo(slot, issues)
    requires opts.bufferBps <= 10_000 && opts.feeTtlSeconds > 0
    requires issues != [] ==> issues[|issues| - 1].readAt <= now
    ensures Resolve(slot, cacheId, now) == Some(s) <==>
            exists i :: 0 <= i < |issues| && issues[i].schedule == s && s.cacheId == cacheId && QuoteLive(s, now)
  {
    var n := |issues|;
    if i :| 0 <= i < n && issues[i].schedule == s && s.cacheId == cacheId && QuoteLive(s, now) {
      LiveQuoteResolves(slot, issues, chainId, opts, i, now);
    }
    if n >= 1 && Resolve(slot, cacheId, now) == Some(issues[n - 1].schedule) {
      assert issues[n - 1].schedule.cacheId == cacheId;
    }
    if n >= 2 && Resolve(slot, cacheId, now) == Some(issues[n - 2].schedule) {
      assert issues[n - 2].schedule.cacheId == cacheId;
    }
  }

  /** Whatever resolves was issued for the chain under that id and is live. */
  lemma ResolvedWasIssued(q: Quotes, opts: FeeOptions, chainId: nat, cacheId: string, now: int)
    requires ConsistentQuotes(q, opts, now) && Resolve(SlotOf(q.byChain, chainId), cacheId, now).Some?
    ensures var s := Resolve(SlotOf(q.byChain, chainId), cacheId, now).value;
            IssuedFor(q, chainId, s) && s.chainId == chainId && s.cacheId == cacheId && QuoteLive(s, now)
  {
    var slot, issues := SlotOf(q.byChain, chainId), HistoryOf(q.issued, chainId);
    assert Consistent(slot, issues, chainId, opts, q.counter, now);
    var s := Resolve(slot, cacheId, now).value;
    assert |issues| >= 1;
    if slot.current == Some(s) {
      assert issues[|issues| - 1].schedule == s;
    } else {
      assert issues[|issues| - 2].schedule == s;
    }
  }

  /** An id issued on one chain resolves on no other. */
  lemma QuotesStayOnTheirChain(slot: Slot, issues: seq<Issue>, chainId: nat, opts: FeeOptions, other: nat,
                               t: nat, n: nat, now: int)
    requires Recorded(issues, chainId, opts) && HoldsLastTwo(slot, issues) && other != chainId
    ensures Resolve(slot, CacheId(other, t, n), now).None?
  {
    forall i | 0 <= i < |issues| ensures issues[i].schedule.cacheId != CacheId(other, t, n) {
      if issues[i].schedule.cacheId == CacheId(other, t, n) {
        CacheIdInjective(chainId, issues[i].readAt, issues[i].counter, other, t, n);
      }
    }
  }

  /** A quote of this history that is live at now but no longer resolves. */
  ghost predicate DropsLiveQuote(slot: Slot, issues: seq<Issue>, opts: FeeOptions, now: int) {
    && Successive(issues, 1, opts) && HoldsLastTwo(slot, issues)
    && (issues != [] ==> issues[|issues| - 1].readAt <= now)
    && exists q: Issue :: q in issues && QuoteLive(q.schedule, now) && Resolve(slot, q.schedule.cacheId, now).None?
  }

  lemma LiveForAnotherRound(s: FeeSchedule, opts: FeeOptions)
    requires s.opts == opts && opts.feeTtlSeconds > 0 && opts.bufferBps > 10_000
    ensures QuoteLive(s, s.expiresAt + opts.feeTtlSeconds * 1000)
  {
    var t := opts.feeTtlSeconds * 1000;
    MulMonotone(10_001, opts.bufferBps, t, t);
    assert t * opts.bufferBps == opts.bufferBps * t;
  }

  /** With a longer buffer, two regenerations that were both due rotate a live quote out. */
  lemma LongBufferDropsLiveQuote(opts: FeeOptions) returns (slot: Slot, issues: seq<Issue>, now: int)
    requires opts.feeTtlSeconds > 0 && opts.bufferBps > 10_000
    ensures DropsLiveQuote(slot, issues, opts, now)
  {
    var m, t := Market(1, 1), opts.feeTtlSeconds * 1000;
    var a, b, c := NewSchedule(1, 0, 1, m, opts), NewSchedule(1, t, 2, m, opts), NewSchedule(1, 2 * t, 3, m, opts);
    issues := [Issue(a, 0, 1), Issue(b, t, 2), Issue(c, 2 * t, 3)];
    slot, now := Slot(Some(c), Some(b)), 2 * t;
    if a.cacheId == b.cacheId { CacheIdInjective(1, 0, 1, 1, t, 2); }
    if a.cacheId == c.cacheId { CacheIdInjective(1, 0, 1, 1, 2 * t, 3); }
    LiveForAnotherRound(a, opts);
    assert issues[0] in issues;
  }

  /** One-deep retention keeps every live quote exactly when the buffer is at most the TTL. */
  lemma BufferBoundIsExact(opts: FeeOptions)
    requires opts.feeTtlSeconds > 0
    ensures opts.bufferBps <= 10_000 <==>
            !exists slot: Slot, issues: seq<Issue>, now: int :: DropsLiveQuote(slot, issues, opts, now)
  {
    if opts.bufferBps > 10_000 {
      var slot, issues, now := LongBufferDropsLiveQuote(opts);
    } else {
      forall slot: Slot, issues: seq<Issue>, now: int ensures !DropsLiveQuote(slot, issues, opts, now) {
        if DropsLiveQuote(slot, issues, opts, now) {
          var q: Issue :| q in issues && QuoteLive(q.schedule, now) && Resolve(slot, q.schedule.cacheId, now).None?;
          ResolvesExactlyLiveQuotes(slot, issues, 1, opts, q.schedule.cacheId, now, q.schedule);
        }
      }
    }
  }

  // ----- the calculator as it runs -----

  class FeeCalculator {
    const opts: FeeOptions
    var counter: nat
    var byChain: map<nat, Slot>
    ghost var issued: map<nat, seq<Issue>> // every schedule ever installed, per chain

    constructor (opts: FeeOptions)
      ensures Valid(0) && this.opts == opts && Quoted() == NOTHING_QUOTED
    {
      this.opts := opts;
      counter, byChain, issued := 0, map[], map[];
    }

    ghost function IssuesOf(chainId: nat): seq<Issue>
      reads this
    {
      HistoryOf(issued, chainId)
    }

    ghost function Quoted(): Quotes
      reads this
    {
      Quotes(byChain, issued, counter)
    }

    ghost predicate Valid(now: int)
      reads this
    {
      ConsistentQuotes(Quoted(), opts, now)
    }

    /** The current schedule while it has not expired: no regeneration is started then. */
    method CurrentSchedule(chainId: nat, now: int) returns (s: Option<FeeSchedule>)
      ensures s.Some? <==> SlotOf(byChain, chainId).current.Some? && now < SlotOf(byChain, chainId).current.value.expiresAt
      ensures s.Some? ==> s == SlotOf(byChain, chainId).current
    {
      var slot := SlotOf(byChain, chainId);
      if slot.current.Some? && now < slot.current.value.expiresAt {
        return slot.current;
      }
      return None;
    }

    /**
     * The end of a regeneration started at readAt. The gas and price reads lie in between, and other regenerations of
     * the same chain may have finished meanwhile; if none has, the history stays free of overlap.
     */
    method Regenerate(chainId: nat, readAt: nat, market: Market, now: int) returns (s: Option<FeeSchedule>)
      requires Valid(now) && readAt <= now
      modifies this
      ensures Valid(now) && Quoted() == AfterRegenerate(old(Quoted()), opts, chainId, readAt, market)
      ensures s.None? <==> opts.shieldFeeBps == 10_000
      ensures s.Some? ==> s == SlotOf(byChain, chainId).current
      ensures old(DueForRegeneration(Quoted(), chainId, readAt) && Spaced(IssuesOf(chainId))) ==> Spaced(IssuesOf(chainId))
    {
      var slot := SlotOf(byChain, chainId);
      if DueForRegeneration(Quoted(), chainId, readAt) && Spaced(IssuesOf(chainId)) {
        DueKeepsSpaced(Quoted(), opts, chainId, readAt, market, now);
      }
      RegenerationKeepsConsistent(Quoted(), opts, chainId, readAt, market, now);
      counter := counter + 1;
      if opts.shieldFeeBps == 10_000 {
        return None; // the gross-up divides by zero
      }
      var schedule := NewSchedule(chainId, readAt, counter, market, opts);
      byChain := byChain[chainId := Slot(Some(schedule), slot.current)];
      issued := issued[chainId := IssuesOf(chainId) + [Issue(schedule, readAt, counter)]];
      return Some(schedule);
    }

    /** resolve, against everything ever issued. */
    method ResolveQuote(chainId: nat, cacheId: string, now: int) returns (s: Option<FeeSchedule>)
      requires Valid(now)
      ensures s == Resolve(SlotOf(byChain, chainId), cacheId, now)
      ensures s.Some? ==> IssuedFor(Quoted(), chainId, s.value) && s.value.chainId == chainId
      ensures s.Some? ==> s.value.cacheId == cacheId && QuoteLive(s.value, now)
      ensures opts.bufferBps <= 10_000 && opts.feeTtlSeconds > 0 && Spaced(IssuesOf(chainId)) ==>
                forall q :: q in IssuesOf(chainId) && q.schedule.cacheId == cacheId && QuoteLive(q.schedule, now) ==>
                  s == Some(q.schedule)
    {
      assert Consistent(SlotOf(byChain, chainId), IssuesOf(chainId), chainId, opts, counter, now);
      s := Resolve(SlotOf(byChain, chainId), cacheId, now);
      if s.Some? {
        ResolvedWasIssued(Quoted(), opts, chainId, cacheId, now);
      }
      if opts.bufferBps <= 10_000 && opts.feeTtlSeconds > 0 && Spaced(IssuesOf(chainId)) {
        forall q | q in IssuesOf(chainId) && q.schedule.cacheId == cacheId && QuoteLive(q.schedule, now)
          ensures s == Some(q.schedule)
        {
          ResolvesExactlyLiveQuotes(SlotOf(byChain, chainId), IssuesOf(chainId), chainId, opts, cacheId, now, q.schedule);
        }
      }
    }
  }

  // ----- advertised fees -----

  function Least(xs: seq<int>): (least: int)
    requires xs != []
    ensures least in xs && forall i :: 0 <= i < |xs| ==> least <= xs[i]
  {
    var last := xs[|xs| - 1];
    if |xs| == 1 then last
    else
      assert xs == xs[..|xs| - 1] + [last];
      Min(last, Least(xs[..|xs| - 1]))
  }

  function FeesUnder(s: FeeSchedule, keys: seq<FeeKey>): seq<int>
    requires forall k :: k in keys ==> Fee(s, k).Some?
  {
    seq(|keys|, i requires 0 <= i < |keys| => Fee(s, keys[i]).value)
  }

  /** The smallest of the schedule's fees under the given keys. */
  function LeastFee(s: FeeSchedule, keys: seq<FeeKey>): (fee: int)
    requires keys != [] && forall k :: k in keys ==> Fee(s, k).Some?
    ensures exists k :: k in keys && Fee(s, k) == Some(fee)
    ensures forall k :: k in keys ==> fee <= Fee(s, k).value
  {
    var fees := FeesUnder(s, keys);
    var fee := Least(fees);
    assert forall k :: k in keys ==> exists i :: 0 <= i < |keys| && keys[i] == k && fees[i] == Fee(s, k).value;
    fee
  }

  method LeastOf(fees: seq<int>) returns (min: int)
    requires fees != []
    ensures min == Least(fees)
  {
    min := fees[0];
    for i := 1 to |fees|
      invariant min == Least(fees[..i])
    {
      assert fees[..i + 1][..i] == fees[..i];
      if fees[i] < min {
        min := fees[i];
      }
    }
    assert fees[..|fees|] == fees;
  }

  method AdvertisedFee(s: FeeSchedule, keys: seq<FeeKey>) returns (min: int)
    requires keys != [] && forall k :: k in keys ==> Fee(s, k).Some?
    ensures min == LeastFee(s, keys)
  {
    min := LeastOf(FeesUnder(s, keys));
  }
}
