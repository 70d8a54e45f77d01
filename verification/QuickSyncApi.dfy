/** The quick-sync endpoints: which blocks one request covers, and what following the pages adds up to. */
module QuickSyncApi {
  import opened Wrappers
  import opened BlockRanges
  import opened QuickSyncDecode
  import opened QuickSyncNative

  function BlockOf(row: RawLogRow): int { row.blockNumber }

  /** The stored pool logs of the blocks lo to hi. */
  function Stored(log: seq<RawLogRow>, lo: int, hi: int): seq<RawLogRow> { Within(log, BlockOf, lo, hi) }

  /** What the watcher has stored once it has indexed the blocks up to `through`. */
  function IndexedTo(log: seq<RawLogRow>, through: nat): seq<RawLogRow> { Stored(log, 0, through) }

  // ----- what one request decodes -----

  datatype EngineBatch = EngineBatch(events: seq<CommitmentEvent>, nullifiers: seq<Nullifier>, unshields: seq<UnshieldEvent>)

  datatype NativeBatch = NativeBatch(shields: seq<NativeShield>, transacts: seq<NativeTransact>,
                                     nullifiers: seq<NativeNullifier>, unshields: seq<NativeUnshield>)

  function EngineOf(e: Option<seq<CommitmentEvent>>, n: Option<seq<Nullifier>>, u: Option<seq<UnshieldEvent>>)
    : Option<EngineBatch>
  {
    if e.None? || n.None? || u.None? then None else Some(EngineBatch(e.value, n.value, u.value))
  }

  function DecodeEngine(poseidon: Poseidon, rows: seq<RawLogRow>): Option<EngineBatch> {
    EngineOf(Decoded(rows, EngineDecoder(poseidon)), Decoded(rows, NullifierRow), Decoded(rows, UnshieldRow))
  }

  function DecodeNative(poseidon: Poseidon, rows: seq<RawLogRow>): Option<NativeBatch> {
    var s, t := Decoded(rows, NativeShieldDecoder(poseidon)), Decoded(rows, NativeTransactRow);
    var n, u := Decoded(rows, NativeNullifierRow), Decoded(rows, NativeUnshieldRow);
    if s.None? || t.None? || n.None? || u.None? then None else Some(NativeBatch(s.value, t.value, n.value, u.value))
  }

  /** The lists of one page after those of another. */
  function Both(a: EngineBatch, b: EngineBatch): EngineBatch {
    EngineBatch(a.events + b.events, a.nullifiers + b.nullifiers, a.unshields + b.unshields)
  }

  function BothOf(a: Option<EngineBatch>, b: Option<EngineBatch>): Option<EngineBatch> {
    if a.None? || b.None? then None else Some(Both(a.value, b.value))
  }

  lemma EngineBatchesJoin(poseidon: Poseidon, a: seq<RawLogRow>, b: seq<RawLogRow>)
    ensures DecodeEngine(poseidon, a + b) == BothOf(DecodeEngine(poseidon, a), DecodeEngine(poseidon, b))
  {
    DecodedJoin(a, b, EngineDecoder(poseidon));
    DecodedJoin(a, b, NullifierRow);
    DecodedJoin(a, b, UnshieldRow);
  }

  /**
   * What a batch stands for, over all rows: its events are the Shield and Transact rows in order, each with its row's
   * tree, position, transaction and block and with its leaves in place behind that position; its withdrawals are the
   * Unshield rows in order. There is no batch exactly when a Shield has another token than an ERC20 or lacks a
   * ciphertext, or a Transact lacks a hash.
   */
  lemma BatchStandsForRows(poseidon: Poseidon, rows: seq<RawLogRow>)
    ensures DecodeEngine(poseidon, rows).Some? <==> AllDecodable(rows)
    ensures DecodeEngine(poseidon, rows).Some? ==>
              var batch, of := DecodeEngine(poseidon, rows).value, WithdrawalRows(rows);
              && StandFor(batch.events, CommitmentRows(rows))
              && |batch.unshields| == |of| && forall i :: 0 <= i < |of| ==> Withdraws(batch.unshields[i], of[i])
  {
    EventsStandForRows(poseidon, rows);
    WithdrawalsStandForRows(rows);
  }

  // ----- the replies -----

  datatype V1Reply =
    | V1Error
    | V1Page(batch: EngineBatch, servedThrough: nat, indexedThrough: Option<nat>, cacheForever: bool)

  datatype V2Reply =
    | V2BadRequest
    | V2Error
    | V2Page(native: NativeBatch, syncedThrough: nat, cacheForever: bool)

  /** A day and immutable for closed ranges behind the confirmation depth, five seconds otherwise. */
  predicate CacheForever(windowEnd: int, through: int, confirmations: nat) { windowEnd <= through - confirmations }

  function WindowEnd(through: nat, start: nat, window: nat): nat
    requires window >= 1
  {
    Min(through, start + window - 1)
  }

  /** /v1: at most `window` blocks from `start`; an empty page when nothing there is indexed yet. */
  function ServeV1(log: seq<RawLogRow>, poseidon: Poseidon, through: Option<nat>, start: nat, window: nat,
                   confirmations: nat): V1Reply
    requires window >= 1
  {
    if through.None? || start > through.value then V1Page(EngineBatch([], [], []), start, through, false)
    else
      var end := WindowEnd(through.value, start, window);
      var batch := DecodeEngine(poseidon, Stored(log, start, end));
      if batch.None? then V1Error
      else V1Page(batch.value, end, through, CacheForever(end, through.value, confirmations))
  }

  /** /v2: the caller's own range, cut at what is indexed. */
  function ServeV2(log: seq<RawLogRow>, poseidon: Poseidon, through: Option<nat>, fromBlock: nat, toBlock: nat,
                   confirmations: nat): V2Reply
  {
    if toBlock < fromBlock then V2BadRequest
    else if through.None? || fromBlock > through.value then
      V2Page(NativeBatch([], [], [], []), Max(0, fromBlock - 1), false)
    else
      var end := Min(through.value, toBlock);
      var batch := DecodeNative(poseidon, Stored(log, fromBlock, end));
      if batch.None? then V2Error else V2Page(batch.value, end, CacheForever(end, through.value, confirmations))
  }

  /** What the client of /v1 stops on. */
  predicate EndsPaging(page: V1Reply)
    requires page.V1Page?
  {
    page.indexedThrough == Some(page.servedThrough)
  }

  /**
   * A /v1 page: the blocks from start to the end of the window or of what is indexed, to be kept for good exactly when
   * that end lies behind the confirmation depth. There is an error exactly when a log of these blocks cannot be decoded.
   */
  lemma V1CoversItsClaim(log: seq<RawLogRow>, poseidon: Poseidon, through: Option<nat>, start: nat, window: nat,
                         confirmations: nat)
    requires window >= 1
    ensures var page, here := ServeV1(log, poseidon, through, start, window, confirmations), through.Some? && start <= through.value;
            && (page.V1Error? <==> here && !AllDecodable(Stored(log, start, Min(through.value, start + window - 1))))
            && (page.V1Page? ==> page.indexedThrough == through)
            && (!here ==> page.batch == EngineBatch([], [], []) && page.servedThrough == start && !page.cacheForever)
            && (here && page.V1Page? ==>
                  && page.servedThrough == Min(through.value, start + window - 1)
                  && Some(page.batch) == DecodeEngine(poseidon, Stored(log, start, page.servedThrough))
                  && (page.cacheForever <==> page.servedThrough + confirmations <= through.value))
  {
    if through.Some? && start <= through.value {
      BatchStandsForRows(poseidon, Stored(log, start, WindowEnd(through.value, start, window)));
    }
  }

  // ----- following the pages -----

  lemma {:induction false} StoredOfIndexed(log: seq<RawLogRow>, through: nat, lo: nat, hi: int)
    requires hi <= through
    ensures Stored(IndexedTo(log, through), lo, hi) == Stored(log, lo, hi)
  {
    if log != [] {
      var init, last := log[..|log| - 1], log[|log| - 1];
      StoredOfIndexed(init, through, lo, hi);
      var shorter := IndexedTo(init, through);
      if last.blockNumber <= through {
        assert IndexedTo(log, through) == shorter + [last];
        LastOfStored(shorter, last, lo, hi);
      } else {
        assert IndexedTo(log, through) == shorter;
      }
    }
  }

  lemma LastOfStored(init: seq<RawLogRow>, last: RawLogRow, lo: int, hi: int)
    ensures Stored(init + [last], lo, hi) == Stored(init, lo, hi) + if lo <= last.blockNumber <= hi then [last] else []
  {
    assert (init + [last])[..|init|] == init;
  }

  /** What was got up to the block before next, and one page from there, make one decode up to the end of the page. */
  lemma OnePage(log: seq<RawLogRow>, poseidon: Poseidon, head: nat, start: nat, next: nat, served: nat)
    requires InBlockOrder(log, BlockOf) && start <= next <= served <= head
    ensures DecodeEngine(poseidon, Stored(log, start, served))
         == BothOf(DecodeEngine(poseidon, Stored(log, start, next - 1)),
                   DecodeEngine(poseidon, Stored(IndexedTo(log, head), next, served)))
  {
    var before, page := Stored(log, start, next - 1), Stored(log, next, served);
    StoredOfIndexed(log, head, next, served);
    RangesJoin(log, BlockOf, start, next - 1, served);
    assert Stored(log, start, served) == before + page;
    EngineBatchesJoin(poseidon, before, page);
  }

  datatype Listing = Events | Nullifiers | Unshields

  ghost predicate SameListing(l: Listing, d: Option<EngineBatch>, r: Option<EngineBatch>) {
    (d.Some? <==> r.Some?)
    && (d.Some? ==> match l
                    case Events => d.value.events == r.value.events
                    case Nullifiers => d.value.nullifiers == r.value.nullifiers
                    case Unshields => d.value.unshields == r.value.unshields)
  }

  /** List by list, this is what one decode of the stored logs of the blocks lo to hi gives. */
  ghost predicate DecodedRange(log: seq<RawLogRow>, poseidon: Poseidon, lo: int, hi: int, r: Option<EngineBatch>) {
    forall l: Listing :: SameListing(l, DecodeEngine(poseidon, Stored(log, lo, hi)), r)
  }

  lemma DecodedRangeIs(log: seq<RawLogRow>, poseidon: Poseidon, lo: int, hi: int, r: Option<EngineBatch>)
    ensures DecodedRange(log, poseidon, lo, hi, r) <==> DecodeEngine(poseidon, Stored(log, lo, hi)) == r
  {
    var d := DecodeEngine(poseidon, Stored(log, lo, hi));
    if DecodedRange(log, poseidon, lo, hi, r) {
      assert SameListing(Events, d, r) && SameListing(Nullifiers, d, r) && SameListing(Unshields, d, r);
    }
  }

  lemma NothingYet(log: seq<RawLogRow>, poseidon: Poseidon, start: nat)
    ensures DecodeEngine(poseidon, Stored(log, start, start - 1)) == Some(EngineBatch([], [], []))
  {
    EmptyRange(log, BlockOf, start);
  }

  /** Page k starts k full windows after the first. */
  ghost predicate StartsAt(start: nat, window: nat, k: nat, next: nat) { next == start + k * window }

  lemma NextStart(start: nat, window: nat, k: nat, next: nat)
    requires StartsAt(start, window, k, next)
    ensures StartsAt(start, window, k + 1, next + window)
  {
    assert (k + 1) * window == k * window + window;
  }

  /** So many pages reach this block, all but the last of them full windows. */
  ghost predicate FullWindows(start: nat, window: nat, pages: nat, served: nat) {
    pages >= 1 && start + (pages - 1) * window <= served < start + pages * window
  }

  lemma LastPage(start: nat, window: nat, k: nat, next: nat, served: nat)
    requires StartsAt(start, window, k, next) && next <= served < next + window
    ensures FullWindows(start, window, k + 1, served)
  {
    NextStart(start, window, k, next);
  }

  ghost predicate OnlyGrows(through: nat -> nat, bound: nat) {
    && (forall i: nat, j: nat :: i <= j ==> through(i) <= through(j))
    && (forall i: nat :: through(i) <= bound)
  }

  /** A copy of the page from an earlier head that a cache may keep for good. */
  predicate Cacheable(log: seq<RawLogRow>, poseidon: Poseidon, head: nat, start: nat, window: nat, confirmations: nat)
    requires window >= 1
  {
    && start <= head
    && var page := ServeV1(IndexedTo(log, head), poseidon, Some(head), start, window, confirmations);
       page.V1Page? && page.cacheForever
  }

  /** The head a request is answered from: an earlier one when a cache has kept such a copy, else the present one. */
  function AnsweredFrom(log: seq<RawLogRow>, poseidon: Poseidon, through: nat, cached: Option<nat>, start: nat,
                        window: nat, confirmations: nat): nat
    requires window >= 1
  {
    if cached.Some? && cached.value <= through && Cacheable(log, poseidon, cached.value, start, window, confirmations)
    then cached.value else through
  }

  /** One request, after which the client has one decode up to the end of the page, or a failure of it. */
  method RequestPage(log: seq<RawLogRow>, poseidon: Poseidon, head: nat, ghost start: nat, next: nat, window: nat,
                     confirmations: nat, ghost acc: EngineBatch)
    returns (page: V1Reply)
    requires InBlockOrder(log, BlockOf) && window >= 1 && start <= next <= head
    requires DecodeEngine(poseidon, Stored(log, start, next - 1)) == Some(acc)
    ensures page == ServeV1(IndexedTo(log, head), poseidon, Some(head), next, window, confirmations)
    ensures DecodeEngine(poseidon, Stored(log, start, WindowEnd(head, next, window)))
         == if page.V1Error? then None else Some(Both(acc, page.batch))
    ensures page.V1Page? ==> page.servedThrough == WindowEnd(head, next, window) && page.indexedThrough == Some(head)
    ensures page.V1Page? && page.cacheForever && confirmations > 0 ==> page.servedThrough < head
  {
    page := ServeV1(IndexedTo(log, head), poseidon, Some(head), next, window, confirmations);
    OnePage(log, poseidon, head, start, next, WindowEnd(head, next, window));
  }

  /** The client's next request, answered from a cache or by the watcher: one more window, or up to the head it saw. */
  method NextPage(log: seq<RawLogRow>, poseidon: Poseidon, through: nat, cached: Option<nat>, ghost start: nat, next: nat,
                  window: nat, confirmations: nat, ghost acc: EngineBatch)
    returns (page: V1Reply, served: nat)
    requires InBlockOrder(log, BlockOf) && window >= 1 && start <= next <= through
    requires DecodedRange(log, poseidon, start, next - 1, Some(acc))
    ensures next <= served < next + window && served <= through
    ensures DecodedRange(log, poseidon, start, served, if page.V1Error? then None else Some(Both(acc, page.batch)))
    ensures page.V1Page? ==> page.servedThrough == served
    ensures page.V1Page? && !EndsPaging(page) ==> served == next + window - 1 < through
    ensures page.V1Page? && EndsPaging(page) && (confirmations > 0 || cached.None?) ==> served == through
  {
    DecodedRangeIs(log, poseidon, start, next - 1, Some(acc));
    var head := AnsweredFrom(log, poseidon, through, cached, next, window, confirmations);
    page := RequestPage(log, poseidon, head, start, next, window, confirmations, acc);
    served := WindowEnd(head, next, window);
    DecodedRangeIs(log, poseidon, start, served, if page.V1Error? then None else Some(Both(acc, page.batch)));
  }

  /**
   * A client following servedThroughBlock + 1 while the watcher keeps indexing, until a page says that it was served
   * through what is indexed. Request k sees the blocks up to through(k), or a copy kept by a cache. The pages add up
   * to exactly one decode of every block from `start`, every page but the last is a full window, and the client ends
   * up where the watcher is, provided the chain has confirmations or no cache stepped in.
   */
  method FollowPages(log: seq<RawLogRow>, poseidon: Poseidon, ghost bound: nat, through: nat -> nat,
                     cached: nat -> Option<nat>, start: nat, window: nat, confirmations: nat)
    returns (got: Option<EngineBatch>, served: nat, requests: nat)
    requires InBlockOrder(log, BlockOf) && window >= 1
    requires OnlyGrows(through, bound) && start <= through(0)
    ensures got == DecodeEngine(poseidon, Stored(log, start, served))
    ensures requests >= 1 && served <= through(requests - 1)
    ensures got.Some? && (confirmations > 0 || cached(requests - 1).None?) ==> served == through(requests - 1)
    ensures FullWindows(start, window, requests, served)
  {
    var next := start;
    var acc := EngineBatch([], [], []);
    requests := 0;
    NothingYet(log, poseidon, start);
    DecodedRangeIs(log, poseidon, start, start - 1, Some(acc));
    while true
      invariant StartsAt(start, window, requests, next) && next <= through(requests)
      invariant DecodedRange(log, poseidon, start, next - 1, Some(acc))
      decreases bound - next
    {
      var page;
      page, served := NextPage(log, poseidon, through(requests), cached(requests), start, next, window, confirmations, acc);
      NextStart(start, window, requests, next);
      LastPage(start, window, requests, next, served);
      requests := requests + 1;
      if page.V1Error? {
        DecodedRangeIs(log, poseidon, start, served, None);
        return None, served, requests;
      }
      acc := Both(acc, page.batch);
      if page.indexedThrough == Some(page.servedThrough) {
        DecodedRangeIs(log, poseidon, start, served, Some(acc));
        return Some(acc), served, requests;
      }
      next := page.servedThrough + 1;
      assert through(requests - 1) <= through(requests);
    }
  }

  /** A page that ends where the indexing stood is kept for good without confirmations, and says that paging is over. */
  lemma CopyIsKept(log: seq<RawLogRow>, poseidon: Poseidon, head: nat, start: nat, window: nat)
    requires start <= head <= start + window - 1 && DecodeEngine(poseidon, Stored(log, start, head)).Some?
    ensures var page := ServeV1(IndexedTo(log, head), poseidon, Some(head), start, window, 0);
            page.V1Page? && page.cacheForever && EndsPaging(page) && page.servedThrough == head
  {
    StoredOfIndexed(log, head, start, head);
    assert WindowEnd(head, start, window) == head;
  }

  /**
   * A client that ends below the head: without confirmations, its first request is answered with a copy kept when the
   * chain had reached block head, within that window. The page says that paging is over, so it is the client's last,
   * and what has been indexed since is never asked for.
   */
  method EndsBelowHead(log: seq<RawLogRow>, poseidon: Poseidon, through: nat, head: nat, start: nat, window: nat)
    returns (page: V1Reply)
    requires InBlockOrder(log, BlockOf) && start <= head <= start + window - 1 && head < through
    requires DecodeEngine(poseidon, Stored(log, start, head)).Some?
    ensures page.V1Page? && EndsPaging(page) && page.servedThrough == head < through
  {
    CopyIsKept(log, poseidon, head, start, window);
    NothingYet(log, poseidon, start);
    var answered := AnsweredFrom(log, poseidon, through, Some(head), start, window, 0);
    page := RequestPage(log, poseidon, answered, start, start, window, 0, EngineBatch([], [], []));
  }

  // ----- what a cached reply may be relied on for -----

  /**
   * When a copy kept for good can end the paging of every client that gets it, also after the chain has gone on:
   * exactly without confirmations, for a page that reaches the indexing head.
   */
  lemma CachedPageEndsPaging(log: seq<RawLogRow>, poseidon: Poseidon, through: nat, start: nat, window: nat, confirmations: nat)
    requires window >= 1 && start <= through
    requires ServeV1(log, poseidon, Some(through), start, window, confirmations).V1Page?
    ensures var page := ServeV1(log, poseidon, Some(through), start, window, confirmations);
            page.cacheForever && EndsPaging(page) <==> confirmations == 0 && through <= start + window - 1
  {
  }

  /** Two logs that differ only in blocks not yet behind the confirmation depth. */
  ghost predicate SameHistory(log: seq<RawLogRow>, later: seq<RawLogRow>, depth: int) {
    forall lo: nat, hi: int :: hi <= depth ==> Stored(log, lo, hi) == Stored(later, lo, hi)
  }

  /** The same logs for the same blocks; the head they were served from may differ. */
  predicate SameContent(a: V1Reply, b: V1Reply) {
    a.V1Page? && b.V1Page? && a.batch == b.batch && a.servedThrough == b.servedThrough
  }

  /** Of a page cached for good nothing but indexedThrough ever changes, with confirmations or for a full window. */
  lemma OnlyHeadAges(log: seq<RawLogRow>, later: seq<RawLogRow>, poseidon: Poseidon, through: nat, now: nat, start: nat,
                     window: nat, confirmations: nat)
    requires window >= 1 && start <= through <= now && SameHistory(log, later, through - confirmations)
    requires ServeV1(log, poseidon, Some(through), start, window, confirmations).V1Page?
    requires ServeV1(log, poseidon, Some(through), start, window, confirmations).cacheForever
    requires confirmations > 0 || start + window - 1 <= through
    ensures ServeV1(later, poseidon, Some(now), start, window, confirmations)
         == ServeV1(log, poseidon, Some(through), start, window, confirmations).(indexedThrough := Some(now))
  {
    var end := start + window - 1;
    assert WindowEnd(through, start, window) == WindowEnd(now, start, window) == end;
    assert Stored(log, start, end) == Stored(later, start, end);
  }

  /** The reply of /v1 to this request has this content at every later head. */
  ghost predicate ContentIsFinal(log: seq<RawLogRow>, poseidon: Poseidon, through: nat, start: nat, window: nat, confirmations: nat)
    requires window >= 1
  {
    forall later: seq<RawLogRow>, now: nat :: through <= now && SameHistory(log, later, through - confirmations) ==>
      SameContent(ServeV1(later, poseidon, Some(now), start, window, confirmations),
                  ServeV1(log, poseidon, Some(through), start, window, confirmations))
  }

  /** What a page cached for good contains is final exactly with confirmations or for a full window. */
  lemma CachedContentIsFinal(log: seq<RawLogRow>, poseidon: Poseidon, through: nat, start: nat, window: nat, confirmations: nat)
    requires window >= 1 && start <= through
    requires ServeV1(log, poseidon, Some(through), start, window, confirmations).V1Page?
    requires ServeV1(log, poseidon, Some(through), start, window, confirmations).cacheForever
    ensures ContentIsFinal(log, poseidon, through, start, window, confirmations)
       <==> confirmations > 0 || start + window - 1 <= through
  {
    var page := ServeV1(log, poseidon, Some(through), start, window, confirmations);
    if confirmations > 0 || start + window - 1 <= through {
      forall later: seq<RawLogRow>, now: nat | through <= now && SameHistory(log, later, through - confirmations)
        ensures SameContent(ServeV1(later, poseidon, Some(now), start, window, confirmations), page)
      {
        OnlyHeadAges(log, later, poseidon, through, now, start, window, confirmations);
      }
    } else {
      var next := ServeV1(log, poseidon, Some(through + 1), start, window, confirmations);
      assert SameHistory(log, log, through - confirmations);
      assert page.servedThrough == through && (next.V1Page? ==> next.servedThrough == through + 1);
      assert !SameContent(next, page);
    }
  }

  /** The reply of /v2 to this request is the same at every later head. */
  ghost predicate NativeIsFinal(log: seq<RawLogRow>, poseidon: Poseidon, through: nat, fromBlock: nat, toBlock: nat, confirmations: nat) {
    forall later: seq<RawLogRow>, now: nat :: through <= now && SameHistory(log, later, through - confirmations) ==>
      ServeV2(later, poseidon, Some(now), fromBlock, toBlock, confirmations)
      == ServeV2(log, poseidon, Some(through), fromBlock, toBlock, confirmations)
  }

  lemma NativeStays(log: seq<RawLogRow>, later: seq<RawLogRow>, poseidon: Poseidon, through: nat, now: nat, fromBlock: nat,
                    toBlock: nat, confirmations: nat)
    requires fromBlock <= toBlock && fromBlock <= through <= now && SameHistory(log, later, through - confirmations)
    requires ServeV2(log, poseidon, Some(through), fromBlock, toBlock, confirmations).V2Page?
    requires ServeV2(log, poseidon, Some(through), fromBlock, toBlock, confirmations).cacheForever
    requires confirmations > 0 || toBlock <= through
    ensures ServeV2(later, poseidon, Some(now), fromBlock, toBlock, confirmations)
         == ServeV2(log, poseidon, Some(through), fromBlock, toBlock, confirmations)
  {
    assert Min(through, toBlock) == Min(now, toBlock) == toBlock;
    assert Stored(log, fromBlock, toBlock) == Stored(later, fromBlock, toBlock);
  }

  /** A /v2 reply cached for good is final exactly with confirmations or when it was not cut at the indexing head. */
  lemma CachedNativeIsFinal(log: seq<RawLogRow>, poseidon: Poseidon, through: nat, fromBlock: nat, toBlock: nat, confirmations: nat)
    requires fromBlock <= toBlock && fromBlock <= through
    requires ServeV2(log, poseidon, Some(through), fromBlock, toBlock, confirmations).V2Page?
    requires ServeV2(log, poseidon, Some(through), fromBlock, toBlock, confirmations).cacheForever
    ensures NativeIsFinal(log, poseidon, through, fromBlock, toBlock, confirmations) <==> confirmations > 0 || toBlock <= through
  {
    var page := ServeV2(log, poseidon, Some(through), fromBlock, toBlock, confirmations);
    if confirmations > 0 || toBlock <= through {
      forall later: seq<RawLogRow>, now: nat | through <= now && SameHistory(log, later, through - confirmations)
        ensures ServeV2(later, poseidon, Some(now), fromBlock, toBlock, confirmations) == page
      {
        NativeStays(log, later, poseidon, through, now, fromBlock, toBlock, confirmations);
      }
    } else {
      var next := ServeV2(log, poseidon, Some(through + 1), fromBlock, toBlock, confirmations);
      assert SameHistory(log, log, through - confirmations);
      assert page.syncedThrough == through && (next.V2Page? ==> next.syncedThrough == through + 1);
      assert next != page;
    }
  }

  /** Every block a reply says it covers has been indexed. */
  predicate ClaimsOnlyIndexed(fromBlock: nat, servedThrough: nat, through: Option<nat>) {
    servedThrough < fromBlock || (through.Some? && servedThrough <= through.value)
  }

  /**
   * A /v2 reply gives exactly the logs of the blocks it claims and never claims past the caller's range; the claim
   * is true except for a request from block 0 before anything is indexed, which is told block 0 is covered.
   */
  lemma V2CoversItsClaim(log: seq<RawLogRow>, poseidon: Poseidon, through: Option<nat>, fromBlock: nat, toBlock: nat,
                         confirmations: nat)
    requires fromBlock <= toBlock
    requires through.None? ==> log == []
    requires ServeV2(log, poseidon, through, fromBlock, toBlock, confirmations).V2Page?
    ensures var page := ServeV2(log, poseidon, through, fromBlock, toBlock, confirmations);
            && fromBlock - 1 <= page.syncedThrough <= toBlock
            && Some(page.native) == DecodeNative(poseidon, Stored(log, fromBlock, page.syncedThrough))
            && (ClaimsOnlyIndexed(fromBlock, page.syncedThrough, through) <==> through.Some? || fromBlock > 0)
            && (through.Some? && fromBlock <= through.value ==> page.syncedThrough == Min(through.value, toBlock))
            && (page.cacheForever <==>
                  through.Some? && fromBlock <= through.value && page.syncedThrough + confirmations <= through.value)
  {
    if through.Some? && fromBlock > through.value {
      EmptyRange(log, BlockOf, fromBlock);
    }
  }

  // ----- the two endpoints -----

  /** The same pool history in both shapes, all four lists of it. */
  ghost predicate SameBatch(n: NativeBatch, e: EngineBatch) {
    && Pairwise(n.shields, Flatten(e.events, true), SameShield)
    && Pairwise(n.transacts, Flatten(e.events, false), SameTransact)
    && Pairwise(n.nullifiers, e.nullifiers, SameNullifier)
    && Pairwise(n.unshields, e.unshields, SameUnshield)
  }

  lemma BatchesAgree(poseidon: Poseidon, rows: seq<RawLogRow>)
    requires forall i :: 0 <= i < |rows| ==> WellTyped(rows[i])
    ensures DecodeEngine(poseidon, rows).Some? <==> DecodeNative(poseidon, rows).Some?
    ensures DecodeEngine(poseidon, rows).Some? ==>
              SameBatch(DecodeNative(poseidon, rows).value, DecodeEngine(poseidon, rows).value)
  {
    FormatsAgree(poseidon, rows);
    SpendsAgree(rows);
  }

  /**
   * The two endpoints tell the same story: what a client following /v1 pages from `start` to `end` has is, list for
   * list, what one /v2 request for that range answers from any head that covers it; if one fails so does the other.
   */
  lemma EndpointsAgree(log: seq<RawLogRow>, poseidon: Poseidon, through: nat, start: nat, end: nat, confirmations: nat)
    requires forall i :: 0 <= i < |log| ==> WellTyped(log[i])
    requires start <= end <= through
    ensures var followed := DecodeEngine(poseidon, Stored(log, start, end));
            var reply := ServeV2(log, poseidon, Some(through), start, end, confirmations);
            && (followed.Some? <==> reply.V2Page?)
            && (followed.Some? ==> reply.syncedThrough == end && SameBatch(reply.native, followed.value))
  {
    var rows := Stored(log, start, end);
    WithinIsFilter(log, BlockOf, start, end);
    forall i | 0 <= i < |rows| ensures WellTyped(rows[i]) {
      var j :| 0 <= j < |log| && log[j] == rows[i];
    }
    BatchesAgree(poseidon, rows);
  }
}
