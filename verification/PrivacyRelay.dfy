/**
 * Many relay requests at once in one process. A request runs without interruption between two awaits; the
 * steps below are those stretches, so every interleaving of requests, quote regenerations, sweeps and clock is a
 * trace of them.
 */
module PrivacyRelay {
  import opened Wrappers
  import opened Hex
  import opened FeeCalculator
  import opened FeeVerifiers
  import opened DedupCache

  /**
   * Where a request waits: for its fee note to be decrypted, not yet holding the lock; for the gas estimate; or for
   * the broadcast whose duplicate check was at lookupAt.
   */
  datatype Live =
    | Verifying(req: Request, schedule: FeeSchedule, selector: string)
    | Estimating(req: Request, approval: Approval)
    | Submitting(req: Request, approval: Approval, lookupAt: int)

  datatype Relay = Relay(now: int, quotes: Quotes, busy: set<nat>, entries: Entries, live: map<nat, Live>, served: set<nat>)

  const QUIET := Relay(0, NOTHING_QUOTED, {}, map[], map[], {})

  datatype Event =
    | Advance(to: int)
    | Regenerate(chainId: nat, readAt: nat, market: Market)
    | Arrive(id: nat, req: Request)
    | FeeChecked(id: nat)
    | GasFailed(id: nat)
    | LookUp(id: nat)
    | SubmitFailed(id: nat)
    | SubmitOk(id: nat, txHash: string)
    | SweepCache

  function KeyFor(req: Request): DedupKey { KeyOf(req.chainId, req.to, req.data) }

  /** A request holds its chain's lock from the end of its checks to its end. */
  predicate Holds(l: Live) { !l.Verifying? }

  function ScheduleOf(l: Live): FeeSchedule { if l.Verifying? then l.schedule else l.approval.schedule }

  /** What the request's quote id resolves to now. */
  function QuoteFor(s: Relay, req: Request): Option<FeeSchedule> {
    Resolve(SlotOf(s.quotes.byChain, req.chainId), req.feesCacheId, s.now)
  }

  /** The request is over: the chain's lock is released and nothing of it is left. */
  function Finish(s: Relay, id: nat): Relay
    requires id in s.live
  {
    s.(busy := s.busy - {s.live[id].req.chainId}, live := s.live - {id})
  }

  /** The fee check came out: a paid request takes the lock of its chain if it is free, any other one ends. */
  function Enter(s: Relay, id: nat, req: Request, verdict: Result<Approval, RelayError>): Relay {
    if verdict.Err? || req.chainId in s.busy then s.(live := s.live - {id})
    else s.(busy := s.busy + {req.chainId}, live := s.live[id := Estimating(req, verdict.value)])
  }

  /** The error a request ends with at its fee check, if it does. */
  function EntryError(busy: set<nat>, req: Request, verdict: Result<Approval, RelayError>): Option<RelayError> {
    if verdict.Err? then Some(verdict.error) else if req.chainId in busy then Some(RelayerBusy) else None
  }

  function Step(cfg: RelayConfig, s: Relay, e: Event): Option<Relay> {
    match e
    case Advance(to) => if s.now <= to then Some(s.(now := to)) else None
    case SweepCache => Some(s.(entries := AfterSweep(s.entries, s.now)))
    case Regenerate(chainId, readAt, market) =>
      if readAt > s.now then None
      else Some(s.(quotes := AfterRegenerate(s.quotes, cfg.opts, chainId, readAt, market)))
    case Arrive(id, req) =>
      if id in s.served then None
      else
        var arrived := s.(served := s.served + {id});
        var quote := QuoteFor(s, req);
        var selector := Opening(cfg, req, quote);
        if selector.Err? then Some(arrived)
        else if Deferred(selector.value) then
          Some(arrived.(live := s.live[id := Verifying(req, quote.value, selector.value)]))
        else Some(Enter(arrived, id, req, Settle(cfg, req, quote.value, selector.value)))
    case FeeChecked(id) =>
      if id !in s.live || !s.live[id].Verifying? then None
      else
        var l := s.live[id];
        Some(Enter(s, id, l.req, Settle(cfg, l.req, l.schedule, l.selector)))
    case GasFailed(id) => if id in s.live && s.live[id].Estimating? then Some(Finish(s, id)) else None
    case LookUp(id) =>
      if id !in s.live || !s.live[id].Estimating? then None
      else
        var l := s.live[id];
        var key := KeyFor(l.req);
        var looked := s.(entries := AfterLookup(s.entries, key, s.now));
        if Lookup(s.entries, key, s.now).Some? then Some(Finish(looked, id))
        else Some(looked.(live := s.live[id := Submitting(l.req, l.approval, s.now)]))
    case SubmitFailed(id) => if id in s.live && s.live[id].Submitting? then Some(Finish(s, id)) else None
    case SubmitOk(id, txHash) =>
      if id !in s.live || !s.live[id].Submitting? then None
      else
        var key := KeyFor(s.live[id].req);
        Some(Finish(s.(entries := s.entries[key := DedupEntry(txHash, s.now)]), id))
  }

  function Run(cfg: RelayConfig, trace: seq<Event>): Option<Relay> {
    if trace == [] then Some(QUIET)
    else
      var s := Run(cfg, trace[..|trace| - 1]);
      if s.None? then None else Step(cfg, s.value, trace[|trace| - 1])
  }

  lemma {:induction false} RunPrefix(cfg: RelayConfig, trace: seq<Event>, i: nat)
    requires Run(cfg, trace).Some? && i <= |trace|
    ensures Run(cfg, trace[..i]).Some?
  {
    if i < |trace| {
      RunPrefix(cfg, trace[..|trace| - 1], i);
      assert trace[..|trace| - 1][..i] == trace[..i];
    } else {
      assert trace[..i] == trace;
    }
  }

  // ----- the lock -----

  /** The lock of a chain is held by exactly one live request, and a locked chain always has one. */
  ghost predicate LockInv(s: Relay) {
    && (forall i :: i in s.live ==> i in s.served)
    && (forall i :: i in s.live && Holds(s.live[i]) ==> s.live[i].req.chainId in s.busy)
    && (forall i, j :: i in s.live && j in s.live && i != j && Holds(s.live[i]) && Holds(s.live[j]) ==>
          s.live[i].req.chainId != s.live[j].req.chainId)
    && (forall c :: c in s.busy ==> exists i :: HolderOf(s, i, c))
  }

  ghost predicate HolderOf(s: Relay, i: nat, chainId: nat) {
    i in s.live && Holds(s.live[i]) && s.live[i].req.chainId == chainId
  }

  lemma FinishKeepsLock(s: Relay, id: nat)
    requires LockInv(s) && id in s.live && Holds(s.live[id])
    ensures LockInv(Finish(s, id))
  {
    var t := Finish(s, id);
    forall c | c in t.busy ensures exists i :: HolderOf(t, i, c) {
      var i :| HolderOf(s, i, c);
      assert HolderOf(t, i, c);
    }
  }

  lemma EnterKeepsLock(s: Relay, id: nat, req: Request, verdict: Result<Approval, RelayError>)
    requires LockInv(s) && id in s.served && (id in s.live ==> !Holds(s.live[id]))
    ensures LockInv(Enter(s, id, req, verdict))
  {
    var t := Enter(s, id, req, verdict);
    forall c | c in t.busy ensures exists i :: HolderOf(t, i, c) {
      if c !in s.busy {
        assert HolderOf(t, id, c);
      } else {
        var i :| HolderOf(s, i, c);
        assert HolderOf(t, i, c);
      }
    }
  }

  /** A request that starts waiting, or goes from the gas estimate to the broadcast, changes no lock. */
  lemma WaitKeepsLock(s: Relay, t: Relay, id: nat, l: Live)
    requires LockInv(s) && t == s.(served := t.served, live := s.live[id := l])
    requires s.served <= t.served && id in t.served
    requires if id in s.live then l.req == s.live[id].req && Holds(l) == Holds(s.live[id]) else !Holds(l)
    ensures LockInv(t)
  {
    forall c | c in t.busy ensures exists i :: HolderOf(t, i, c) {
      var i :| HolderOf(s, i, c);
      assert HolderOf(t, i, c);
    }
  }

  /** What neither ends nor starts holding anything keeps the locks. */
  lemma SameLocks(s: Relay, t: Relay)
    requires LockInv(s) && t.live == s.live && t.busy == s.busy && s.served <= t.served
    ensures LockInv(t)
  {
    forall c | c in t.busy ensures exists i :: HolderOf(t, i, c) {
      var i :| HolderOf(s, i, c);
      assert HolderOf(t, i, c);
    }
  }

  lemma ArriveKeepsLock(cfg: RelayConfig, s: Relay, id: nat, req: Request)
    requires LockInv(s) && Step(cfg, s, Arrive(id, req)).Some?
    ensures LockInv(Step(cfg, s, Arrive(id, req)).value)
  {
    var t := Step(cfg, s, Arrive(id, req)).value;
    var arrived := s.(served := s.served + {id});
    SameLocks(s, arrived);
    var quote := QuoteFor(s, req);
    var selector := Opening(cfg, req, quote);
    if selector.Ok? {
      if Deferred(selector.value) {
        WaitKeepsLock(s, t, id, Verifying(req, quote.value, selector.value));
      } else {
        EnterKeepsLock(arrived, id, req, Settle(cfg, req, quote.value, selector.value));
      }
    }
  }

  lemma LookUpKeepsLock(cfg: RelayConfig, s: Relay, id: nat)
    requires LockInv(s) && Step(cfg, s, LookUp(id)).Some?
    ensures LockInv(Step(cfg, s, LookUp(id)).value)
  {
    var l := s.live[id];
    var looked := s.(entries := AfterLookup(s.entries, KeyFor(l.req), s.now));
    SameLocks(s, looked);
    if Lookup(s.entries, KeyFor(l.req), s.now).Some? {
      FinishKeepsLock(looked, id);
    } else {
      WaitKeepsLock(looked, Step(cfg, s, LookUp(id)).value, id, Submitting(l.req, l.approval, s.now));
    }
  }

  lemma StepKeepsLock(cfg: RelayConfig, s: Relay, e: Event)
    requires LockInv(s) && Step(cfg, s, e).Some?
    ensures LockInv(Step(cfg, s, e).value)
  {
    match e
    case Arrive(id, req) => ArriveKeepsLock(cfg, s, id, req);
    case FeeChecked(id) => EnterKeepsLock(s, id, s.live[id].req, Settle(cfg, s.live[id].req, s.live[id].schedule, s.live[id].selector));
    case LookUp(id) => LookUpKeepsLock(cfg, s, id);
    case GasFailed(id) => FinishKeepsLock(s, id);
    case SubmitFailed(id) => FinishKeepsLock(s, id);
    case SubmitOk(id, txHash) =>
      var recorded := s.(entries := s.entries[KeyFor(s.live[id].req) := DedupEntry(txHash, s.now)]);
      SameLocks(s, recorded);
      FinishKeepsLock(recorded, id);
    case Advance(_) => SameLocks(s, Step(cfg, s, e).value);
    case Regenerate(_, _, _) => SameLocks(s, Step(cfg, s, e).value);
    case SweepCache => SameLocks(s, Step(cfg, s, e).value);
  }

  /** In every interleaving each lock has exactly one holder, so every exit releases its own lock and no other. */
  lemma {:induction false} LocksHaveOneHolder(cfg: RelayConfig, trace: seq<Event>)
    requires Run(cfg, trace).Some?
    ensures LockInv(Run(cfg, trace).value)
  {
    if trace != [] {
      LocksHaveOneHolder(cfg, trace[..|trace| - 1]);
      StepKeepsLock(cfg, Run(cfg, trace[..|trace| - 1]).value, trace[|trace| - 1]);
    }
  }

  /** A lock changes hands only through its holder: any other request's step leaves it alone. */
  lemma OnlyTheHolderReleases(cfg: RelayConfig, trace: seq<Event>, e: Event, chainId: nat, holder: nat)
    requires Run(cfg, trace).Some? && Step(cfg, Run(cfg, trace).value, e).Some?
    requires HolderOf(Run(cfg, trace).value, holder, chainId)
    requires chainId !in Step(cfg, Run(cfg, trace).value, e).value.busy
    ensures (e.GasFailed? || e.LookUp? || e.SubmitFailed? || e.SubmitOk?) && e.id == holder
    ensures holder !in Step(cfg, Run(cfg, trace).value, e).value.live
  {
    LocksHaveOneHolder(cfg, trace);
  }

  // ----- duplicates -----

  datatype Sent = Sent(req: Request, lookupAt: int, recordedAt: int)

  /** The successful broadcasts, in the order in which they were recorded. */
  ghost function SentIn(cfg: RelayConfig, trace: seq<Event>): seq<Sent>
    requires Run(cfg, trace).Some?
  {
    if trace == [] then []
    else
      var init, e := trace[..|trace| - 1], trace[|trace| - 1];
      var s := Run(cfg, init).value;
      SentIn(cfg, init)
      + if e.SubmitOk? then [Sent(s.live[e.id].req, s.live[e.id].lookupAt, s.now)] else []
  }

  /** A broadcast is remembered until it is older than the TTL. */
  ghost predicate Remembered(s: Relay, b: Sent) {
    || s.now - b.recordedAt > DEDUP_TTL_MS
    || (KeyFor(b.req) in s.entries && b.recordedAt <= s.entries[KeyFor(b.req)].timestamp)
  }

  /** A request on its way was checked when every earlier broadcast of the same calldata had aged out. */
  ghost predicate Checked(l: Live, b: Sent) {
    l.Submitting? && KeyFor(l.req) == KeyFor(b.req) ==> l.lookupAt - b.recordedAt > DEDUP_TTL_MS
  }

  ghost predicate DedupInv(s: Relay, sent: seq<Sent>) {
    && (forall k :: k in s.entries ==> s.entries[k].timestamp <= s.now)
    && (forall n :: 0 <= n < |sent| ==> Remembered(s, sent[n]))
    && (forall i, n :: i in s.live && 0 <= n < |sent| ==> Checked(s.live[i], sent[n]))
    && (forall m, n :: 0 <= m < n < |sent| && KeyFor(sent[m].req) == KeyFor(sent[n].req) ==>
          sent[n].lookupAt - sent[m].recordedAt > DEDUP_TTL_MS)
  }

  lemma LookUpKeepsDedup(cfg: RelayConfig, s: Relay, id: nat, sent: seq<Sent>)
    requires DedupInv(s, sent) && Step(cfg, s, LookUp(id)).Some?
    ensures DedupInv(Step(cfg, s, LookUp(id)).value, sent)
  {
    var l := s.live[id];
    forall n | 0 <= n < |sent| && Lookup(s.entries, KeyFor(l.req), s.now).None? && KeyFor(l.req) == KeyFor(sent[n].req)
      ensures s.now - sent[n].recordedAt > DEDUP_TTL_MS
    {
      assert Remembered(s, sent[n]);
    }
  }

  lemma SubmitKeepsDedup(cfg: RelayConfig, s: Relay, e: Event, sent: seq<Sent>)
    requires DedupInv(s, sent) && LockInv(s) && e.SubmitOk? && Step(cfg, s, e).Some?
    ensures DedupInv(Step(cfg, s, e).value, sent + [Sent(s.live[e.id].req, s.live[e.id].lookupAt, s.now)])
  {
    var b := Sent(s.live[e.id].req, s.live[e.id].lookupAt, s.now);
    var t := Step(cfg, s, e).value;
    forall n | 0 <= n < |sent|
      ensures Remembered(t, sent[n]) && (KeyFor(sent[n].req) == KeyFor(b.req) ==> b.lookupAt - sent[n].recordedAt > DEDUP_TTL_MS)
    {
      assert Remembered(s, sent[n]) && Checked(s.live[e.id], sent[n]);
    }
    forall i | i in t.live ensures Checked(t.live[i], b) {
      if t.live[i].Submitting? {
        assert s.live[i].req.chainId != s.live[e.id].req.chainId;
      }
    }
  }

  lemma {:induction false} DedupHolds(cfg: RelayConfig, trace: seq<Event>)
    requires Run(cfg, trace).Some?
    ensures DedupInv(Run(cfg, trace).value, SentIn(cfg, trace))
  {
    if trace != [] {
      var init, e := trace[..|trace| - 1], trace[|trace| - 1];
      var s, sent := Run(cfg, init).value, SentIn(cfg, init);
      DedupHolds(cfg, init);
      if e.LookUp? {
        LookUpKeepsDedup(cfg, s, e.id, sent);
        assert sent + [] == sent;
      } else if e.SubmitOk? {
        LocksHaveOneHolder(cfg, init);
        SubmitKeepsDedup(cfg, s, e, sent);
      } else {
        OtherKeepsDedup(cfg, s, e, sent);
        assert sent + [] == sent;
      }
    }
  }

  lemma OtherKeepsDedup(cfg: RelayConfig, s: Relay, e: Event, sent: seq<Sent>)
    requires DedupInv(s, sent) && !e.LookUp? && !e.SubmitOk? && Step(cfg, s, e).Some?
    ensures DedupInv(Step(cfg, s, e).value, sent)
  {
    var t := Step(cfg, s, e).value;
    forall n | 0 <= n < |sent| ensures Remembered(t, sent[n]) {
      assert Remembered(s, sent[n]);
    }
    forall i, n | i in t.live && 0 <= n < |sent| ensures Checked(t.live[i], sent[n]) {
      assert i in s.live ==> Checked(s.live[i], sent[n]);
    }
  }

  /** The same calldata to the same target on the same chain, whatever the case of the letters. */
  predicate SameCall(a: Request, b: Request) {
    a.chainId == b.chainId && Lower(a.to) == Lower(b.to) && Lower(a.data) == Lower(b.data)
  }

  /**
   * Under every interleaving of requests and sweeps, of two successful broadcasts of the same call the later one was
   * looked up more than ten minutes after the earlier was recorded.
   */
  lemma DuplicatesAreFarApart(cfg: RelayConfig, trace: seq<Event>, m: nat, n: nat)
    requires Run(cfg, trace).Some? && m < n < |SentIn(cfg, trace)|
    requires SameCall(SentIn(cfg, trace)[m].req, SentIn(cfg, trace)[n].req)
    ensures SentIn(cfg, trace)[n].lookupAt - SentIn(cfg, trace)[m].recordedAt > 600_000
  {
    DedupHolds(cfg, trace);
  }

  /** Every entry of the cache is that of a successful broadcast. */
  lemma {:induction false} EntryWasSent(cfg: RelayConfig, trace: seq<Event>, key: DedupKey) returns (n: nat)
    requires Run(cfg, trace).Some? && key in Run(cfg, trace).value.entries
    ensures n < |SentIn(cfg, trace)| && KeyFor(SentIn(cfg, trace)[n].req) == key
    ensures SentIn(cfg, trace)[n].recordedAt == Run(cfg, trace).value.entries[key].timestamp
  {
    var init, e := trace[..|trace| - 1], trace[|trace| - 1];
    var s := Run(cfg, init).value;
    if e.SubmitOk? && KeyFor(s.live[e.id].req) == key {
      n := |SentIn(cfg, init)|;
    } else {
      StepKeepsEntry(cfg, s, e, key);
      n := EntryWasSent(cfg, init, key);
    }
  }

  lemma StepKeepsEntry(cfg: RelayConfig, s: Relay, e: Event, key: DedupKey)
    requires Step(cfg, s, e).Some? && key in Step(cfg, s, e).value.entries
    requires !(e.SubmitOk? && KeyFor(s.live[e.id].req) == key)
    ensures key in s.entries && Step(cfg, s, e).value.entries[key] == s.entries[key]
  {
  }

  /** The same call has been broadcast with success in the last ten minutes. */
  ghost predicate SentLately(sent: seq<Sent>, req: Request, now: int) {
    exists n :: 0 <= n < |sent| && SameCall(sent[n].req, req) && now - sent[n].recordedAt <= 600_000
  }

  /** A request that has its gas estimate goes to the wallet exactly when its call has not been sent lately. */
  lemma OnlyDuplicatesAreRefused(cfg: RelayConfig, trace: seq<Event>, id: nat)
    requires Run(cfg, trace).Some? && Step(cfg, Run(cfg, trace).value, LookUp(id)).Some?
    ensures var s := Run(cfg, trace).value;
            id in Step(cfg, s, LookUp(id)).value.live <==> !SentLately(SentIn(cfg, trace), s.live[id].req, s.now)
  {
    var s, sent := Run(cfg, trace).value, SentIn(cfg, trace);
    var req := s.live[id].req;
    DedupHolds(cfg, trace);
    if n :| 0 <= n < |sent| && SameCall(sent[n].req, req) && s.now - sent[n].recordedAt <= 600_000 {
      assert KeyFor(sent[n].req) == KeyFor(req) && Remembered(s, sent[n]);
    }
    if id !in Step(cfg, s, LookUp(id)).value.live {
      var n := EntryWasSent(cfg, trace, KeyFor(req));
      assert SameCall(sent[n].req, req);
    }
  }

  // ----- no unpaid broadcast -----

  /** Only a regeneration touches the quotes. */
  lemma QuotesFrame(cfg: RelayConfig, s: Relay, e: Event)
    requires Step(cfg, s, e).Some?
    ensures !e.Regenerate? ==> Step(cfg, s, e).value.quotes == s.quotes
    ensures s.now <= Step(cfg, s, e).value.now
  {
  }

  lemma StepKeepsQuotes(cfg: RelayConfig, s: Relay, e: Event)
    requires Step(cfg, s, e).Some? && ConsistentQuotes(s.quotes, cfg.opts, s.now)
    ensures ConsistentQuotes(Step(cfg, s, e).value.quotes, cfg.opts, Step(cfg, s, e).value.now)
  {
    QuotesFrame(cfg, s, e);
    if e.Regenerate? {
      RegenerationKeepsConsistent(s.quotes, cfg.opts, e.chainId, e.readAt, e.market, s.now);
    } else {
      WaitingKeepsConsistent(s.quotes, cfg.opts, s.now, Step(cfg, s, e).value.now);
    }
  }

  /** In every run what the slots hold is what was issued, as the calculator keeps it. */
  lemma {:induction false} QuotesStayConsistent(cfg: RelayConfig, trace: seq<Event>)
    requires Run(cfg, trace).Some?
    ensures ConsistentQuotes(Run(cfg, trace).value.quotes, cfg.opts, Run(cfg, trace).value.now)
  {
    if trace != [] {
      QuotesStayConsistent(cfg, trace[..|trace| - 1]);
      StepKeepsQuotes(cfg, Run(cfg, trace[..|trace| - 1]).value, trace[|trace| - 1]);
    }
  }

  /** What a waiting request has shown so far, for the schedule its quote resolved to. */
  ghost predicate Cleared(cfg: RelayConfig, l: Live) {
    if l.Verifying? then Opening(cfg, l.req, Some(l.schedule)) == Ok(l.selector)
    else Checks(cfg, l.req, Some(l.approval.schedule)) == Ok(l.approval)
  }

  /** Event c is the arrival of this request, at which its quote resolved to the schedule it is held to. */
  ghost predicate ArrivedAt(cfg: RelayConfig, trace: seq<Event>, c: int, id: nat, l: Live) {
    && 0 <= c < |trace| && trace[c] == Arrive(id, l.req)
    && Run(cfg, trace[..c]).Some?
    && QuoteFor(Run(cfg, trace[..c]).value, l.req) == Some(ScheduleOf(l))
  }

  lemma CheckedIsCleared(cfg: RelayConfig, s: Relay, id: nat)
    requires id in s.live && s.live[id].Verifying? && Cleared(cfg, s.live[id])
    requires id in Step(cfg, s, FeeChecked(id)).value.live
    ensures var l := Step(cfg, s, FeeChecked(id)).value.live[id];
            l.req == s.live[id].req && ScheduleOf(l) == ScheduleOf(s.live[id]) && Cleared(cfg, l)
  {
    var l := s.live[id];
    assert Checks(cfg, l.req, Some(l.schedule)) == Settle(cfg, l.req, l.schedule, l.selector);
  }

  lemma LookedUpIsKept(cfg: RelayConfig, s: Relay, id: nat)
    requires id in s.live && s.live[id].Estimating? && id in Step(cfg, s, LookUp(id)).value.live
    ensures Step(cfg, s, LookUp(id)).value.live[id] == Submitting(s.live[id].req, s.live[id].approval, s.now)
  {
  }

  lemma OthersAreKept(cfg: RelayConfig, s: Relay, e: Event, id: nat)
    requires Step(cfg, s, e).Some? && id in Step(cfg, s, e).value.live
    requires !((e.Arrive? || e.FeeChecked? || e.LookUp?) && e.id == id)
    ensures id in s.live && Step(cfg, s, e).value.live[id] == s.live[id]
  {
  }

  /** A step other than its arrival keeps what a live request asked for and the schedule it is held to. */
  lemma LiveIsKept(cfg: RelayConfig, s: Relay, e: Event, id: nat)
    requires Step(cfg, s, e).Some? && id in Step(cfg, s, e).value.live && !(e.Arrive? && e.id == id)
    requires id in s.live ==> Cleared(cfg, s.live[id])
    ensures id in s.live && Step(cfg, s, e).value.live[id].req == s.live[id].req
    ensures ScheduleOf(Step(cfg, s, e).value.live[id]) == ScheduleOf(s.live[id])
    ensures Cleared(cfg, Step(cfg, s, e).value.live[id])
  {
    if e.FeeChecked? && e.id == id {
      CheckedIsCleared(cfg, s, id);
    } else if e.LookUp? && e.id == id {
      LookedUpIsKept(cfg, s, id);
    } else {
      OthersAreKept(cfg, s, e, id);
    }
  }

  lemma ArrivalIsCleared(cfg: RelayConfig, s: Relay, id: nat, req: Request)
    requires Step(cfg, s, Arrive(id, req)).Some? && id !in s.live && id in Step(cfg, s, Arrive(id, req)).value.live
    ensures var l := Step(cfg, s, Arrive(id, req)).value.live[id];
            l.req == req && QuoteFor(s, req) == Some(ScheduleOf(l)) && Cleared(cfg, l)
  {
    var quote := QuoteFor(s, req);
    var selector := Opening(cfg, req, quote);
    assert Checks(cfg, req, quote) == Settle(cfg, req, quote.value, selector.value);
  }

  lemma ArrivalStays(cfg: RelayConfig, trace: seq<Event>, c: int, id: nat, before: Live, l: Live)
    requires trace != [] && ArrivedAt(cfg, trace[..|trace| - 1], c, id, before)
    requires l.req == before.req && ScheduleOf(l) == ScheduleOf(before)
    ensures ArrivedAt(cfg, trace, c, id, l)
  {
    assert trace[..|trace| - 1][..c] == trace[..c];
  }

  lemma ArrivesNow(cfg: RelayConfig, trace: seq<Event>, id: nat)
    requires trace != [] && Run(cfg, trace).Some? && id in Run(cfg, trace).value.live
    requires trace[|trace| - 1].Arrive? && trace[|trace| - 1].id == id
    ensures Cleared(cfg, Run(cfg, trace).value.live[id])
    ensures ArrivedAt(cfg, trace, |trace| - 1, id, Run(cfg, trace).value.live[id])
  {
    var n := |trace| - 1;
    var s := Run(cfg, trace[..n]).value;
    assert id !in s.live by { LocksHaveOneHolder(cfg, trace[..n]); }
    ArrivalIsCleared(cfg, s, id, trace[n].req);
  }

  lemma {:induction false} LiveHasArrived(cfg: RelayConfig, trace: seq<Event>, id: nat)
    requires Run(cfg, trace).Some? && id in Run(cfg, trace).value.live
    ensures Cleared(cfg, Run(cfg, trace).value.live[id])
    ensures exists c :: ArrivedAt(cfg, trace, c, id, Run(cfg, trace).value.live[id])
  {
    var n := |trace| - 1;
    var s, l := Run(cfg, trace[..n]).value, Run(cfg, trace).value.live[id];
    if trace[n].Arrive? && trace[n].id == id {
      ArrivesNow(cfg, trace, id);
    } else {
      if id in s.live {
        LiveHasArrived(cfg, trace[..n], id);
      }
      LiveIsKept(cfg, s, trace[n], id);
      var c :| ArrivedAt(cfg, trace[..n], c, id, s.live[id]);
      ArrivalStays(cfg, trace, c, id, s.live[id], l);
    }
  }

  /** Event n hands its request to the wallet: the gas estimate is in and no duplicate was found. */
  ghost predicate HandsToWallet(cfg: RelayConfig, trace: seq<Event>, n: nat)
    requires Run(cfg, trace).Some?
  {
    && n < |trace| && trace[n].LookUp?
    && Run(cfg, trace[..n + 1]).Some? && trace[n].id in Run(cfg, trace[..n + 1]).value.live
  }

  /** Regeneration r of this chain made the schedule of the gas price and the ETH price that it had read. */
  ghost predicate MadeBy(cfg: RelayConfig, trace: seq<Event>, r: int, chainId: nat, schedule: FeeSchedule) {
    && 0 <= r < |trace| && trace[r].Regenerate? && trace[r].chainId == chainId == schedule.chainId
    && schedule.market == trace[r].market && schedule.opts == cfg.opts
    && schedule.expiresAt == trace[r].readAt + cfg.opts.feeTtlSeconds * 1000
  }

  lemma {:induction false} IssuesWereMade(cfg: RelayConfig, trace: seq<Event>, chainId: nat, i: nat)
    requires Run(cfg, trace).Some? && i < |HistoryOf(Run(cfg, trace).value.quotes.issued, chainId)|
    ensures exists r :: MadeBy(cfg, trace, r, chainId, HistoryOf(Run(cfg, trace).value.quotes.issued, chainId)[i].schedule)
  {
    assert trace != [];
    var init, e := trace[..|trace| - 1], trace[|trace| - 1];
    var was, here := HistoryOf(Run(cfg, init).value.quotes.issued, chainId), HistoryOf(Run(cfg, trace).value.quotes.issued, chainId);
    QuotesFrame(cfg, Run(cfg, init).value, e);
    if i < |was| {
      assert here[i] == was[i];
      IssuesWereMade(cfg, init, chainId, i);
      var r :| MadeBy(cfg, init, r, chainId, was[i].schedule);
      assert MadeBy(cfg, trace, r, chainId, here[i].schedule);
    } else {
      assert MadeBy(cfg, trace, |trace| - 1, chainId, here[i].schedule);
    }
  }

  /**
   * When the request arrived at event c, the calculator had issued this schedule for its chain, with the prices that a
   * regeneration before that had read, and the time it is honoured for had not passed.
   */
  ghost predicate QuotedAt(cfg: RelayConfig, trace: seq<Event>, c: int, req: Request, schedule: FeeSchedule) {
    && 0 <= c <= |trace| && Run(cfg, trace[..c]).Some?
    && var s := Run(cfg, trace[..c]).value;
       && IssuedFor(s.quotes, req.chainId, schedule) && (exists r :: MadeBy(cfg, trace[..c], r, req.chainId, schedule))
       && schedule.cacheId == req.feesCacheId
       && (s.now - schedule.expiresAt) * 10_000 < cfg.opts.feeTtlSeconds * 1000 * cfg.opts.bufferBps
  }

  lemma ArrivalWasQuoted(cfg: RelayConfig, trace: seq<Event>, n: nat, c: int, id: nat, l: Live)
    requires n <= |trace| && ArrivedAt(cfg, trace[..n], c, id, l)
    ensures QuotedAt(cfg, trace, c, l.req, ScheduleOf(l))
  {
    assert trace[..n][..c] == trace[..c];
    QuotesStayConsistent(cfg, trace[..c]);
    var s := Run(cfg, trace[..c]).value;
    ResolvedWasIssued(s.quotes, cfg.opts, l.req.chainId, l.req.feesCacheId, s.now);
    var i :| 0 <= i < |HistoryOf(s.quotes.issued, l.req.chainId)|
          && HistoryOf(s.quotes.issued, l.req.chainId)[i].schedule == ScheduleOf(l);
    IssuesWereMade(cfg, trace[..c], l.req.chainId, i);
  }

  /** The request shows everything and pays for a schedule it was quoted when it arrived, before event n. */
  ghost predicate PaidFor(cfg: RelayConfig, trace: seq<Event>, n: nat, id: nat, req: Request, a: Approval)
    requires n <= |trace|
  {
    && Approved(cfg, req, a) && PaysItsWay(a)
    && exists c :: 0 <= c < n && trace[c] == Arrive(id, req) && QuotedAt(cfg, trace, c, req, a.schedule)
  }

  lemma HolderHasPaid(cfg: RelayConfig, trace: seq<Event>, n: nat, id: nat)
    requires n <= |trace| && Run(cfg, trace[..n]).Some? && id in Run(cfg, trace[..n]).value.live
    requires Holds(Run(cfg, trace[..n]).value.live[id])
    ensures var l := Run(cfg, trace[..n]).value.live[id]; PaidFor(cfg, trace, n, id, l.req, l.approval)
  {
    var l := Run(cfg, trace[..n]).value.live[id];
    LiveHasArrived(cfg, trace[..n], id);
    ChecksAreExact(cfg, l.req, Some(l.approval.schedule), l.approval);
    ApprovedPaysItsWay(cfg, l.req, l.approval);
    var c :| ArrivedAt(cfg, trace[..n], c, id, l);
    assert trace[..n][c] == trace[c];
    ArrivalWasQuoted(cfg, trace, n, c, id, l);
  }

  /** What is handed to the wallet is what held the lock just before. */
  lemma HandedOver(cfg: RelayConfig, trace: seq<Event>, n: nat)
    requires Run(cfg, trace).Some? && HandsToWallet(cfg, trace, n)
    ensures var id, l := trace[n].id, Run(cfg, trace[..n + 1]).value.live[trace[n].id];
            && l.Submitting? && Run(cfg, trace[..n]).Some? && id in Run(cfg, trace[..n]).value.live
            && Run(cfg, trace[..n]).value.live[id] == Estimating(l.req, l.approval)
  {
    RunPrefix(cfg, trace, n);
    assert trace[..n + 1][..n] == trace[..n];
  }

  /**
   * Whatever happens in between, a request reaches the wallet only if, when it arrived, its quote was one the
   * calculator had issued for its chain and still live, and its own calldata has an allowlisted target, an allowed
   * selector and pays the fee that schedule advertises for the selector: the price of the gas of that operation.
   */
  lemma NoUnpaidBroadcast(cfg: RelayConfig, trace: seq<Event>, n: nat)
    requires Run(cfg, trace).Some? && HandsToWallet(cfg, trace, n)
    ensures var l := Run(cfg, trace[..n + 1]).value.live[trace[n].id];
            l.Submitting? && PaidFor(cfg, trace, n, trace[n].id, l.req, l.approval)
  {
    HandedOver(cfg, trace, n);
    HolderHasPaid(cfg, trace, n, trace[n].id);
  }

  // ----- the relay as it runs -----

  /** An arrival whose fee needs no decryption enters or ends at once. */
  lemma ArriveSettles(cfg: RelayConfig, s: Relay, id: nat, req: Request, selector: string)
    requires id !in s.served && Opening(cfg, req, QuoteFor(s, req)) == Ok(selector) && !Deferred(selector)
    ensures QuoteFor(s, req).Some?
    ensures Step(cfg, s, Arrive(id, req))
         == Some(Enter(s.(served := s.served + {id}), id, req, Settle(cfg, req, QuoteFor(s, req).value, selector)))
  {
  }

  /** What a request does next: hand a transaction to the wallet, or end with an error. */
  datatype Next = Submit(req: Request, gasLimit: nat) | Fail(error: RelayError)

  class RelayProcess {
    const cfg: RelayConfig
    const dedup: DedupCache
    const fees: FeeCalculator
    var now: int
    var busy: set<nat>
    var live: map<nat, Live> // the suspended requests
    ghost var served: set<nat>
    ghost var trace: seq<Event>

    ghost function View(): Relay
      reads this, dedup, fees
    {
      Relay(now, fees.Quoted(), busy, dedup.entries, live, served)
    }

    ghost predicate Valid()
      reads this, dedup, fees
    {
      Run(cfg, trace) == Some(View()) && fees.opts == cfg.opts && fees.Valid(now)
    }

    constructor (cfg: RelayConfig)
      ensures Valid() && this.cfg == cfg && trace == [] && fresh(dedup) && fresh(fees)
    {
      this.cfg := cfg;
      dedup := new DedupCache();
      fees := new FeeCalculator(cfg.opts);
      now, busy, live, served, trace := 0, {}, map[], {}, [];
    }

    ghost method Record(before: Relay, e: Event)
      requires Run(cfg, trace) == Some(before) && Step(cfg, before, e) == Some(View())
      requires fees.opts == cfg.opts && fees.Valid(now)
      modifies this`trace
      ensures Valid() && trace == old(trace) + [e]
    {
      assert (trace + [e])[..|trace|] == trace;
      trace := trace + [e];
    }

    method TryAcquire(chainId: nat) returns (ok: bool)
      modifies this`busy
      ensures ok == (chainId !in old(busy)) && busy == old(busy) + {chainId}
    {
      if chainId in busy {
        return false;
      }
      busy := busy + {chainId};
      return true;
    }

    /** The finally block: give up the lock and forget the request. */
    method Release(id: nat)
      requires id in live
      modifies this`busy, this`live
      ensures busy == old(busy) - {old(live)[id].req.chainId} && live == old(live) - {id}
    {
      busy := busy - {live[id].req.chainId};
      live := live - {id};
    }

    /** From the verdict on the fee to the gas estimate: the lock is taken, or the request ends with an error. */
    method TakeLock(id: nat, req: Request, verdict: Result<Approval, RelayError>) returns (error: Option<RelayError>)
      modifies this`busy, this`live
      ensures error == EntryError(old(busy), req, verdict)
      ensures View() == Enter(old(View()), id, req, verdict)
    {
      if verdict.Err? {
        live := live - {id};
        return Some(verdict.error);
      }
      var acquired := TryAcquire(req.chainId);
      if !acquired {
        assert busy == old(busy);
        live := live - {id};
        return Some(RelayerBusy);
      }
      live := live[id := Estimating(req, verdict.value)];
      return None;
    }

    /** What becomes of a request in its first stretch: the error it ends with, or none while it waits. */
    ghost function FirstError(req: Request): Option<RelayError>
      reads this, dedup, fees
    {
      var quote := QuoteFor(View(), req);
      var selector := Opening(cfg, req, quote);
      if selector.Err? then Some(selector.error)
      else if Deferred(selector.value) then None
      else EntryError(busy, req, Settle(cfg, req, quote.value, selector.value))
    }

    /** A fee that needs no decryption is verified in the same stretch, and the lock taken. */
    method SettleAtOnce(id: nat, req: Request, quote: Option<FeeSchedule>, selector: string) returns (error: Option<RelayError>)
      requires Valid() && id !in served && id !in live && quote == QuoteFor(View(), req)
      requires Opening(cfg, req, quote) == Ok(selector) && !Deferred(selector)
      modifies this
      ensures Valid() && trace == old(trace) + [Arrive(id, req)]
      ensures error == EntryError(old(busy), req, Settle(cfg, req, quote.value, selector))
      ensures error.Some? ==> live == old(live) && busy == old(busy)
    {
      ghost var before := View();
      ArriveSettles(cfg, before, id, req, selector);
      served := served + {id};
      error := TakeLock(id, req, Settle(cfg, req, quote.value, selector));
      assert error.Some? ==> live == before.live;
      Record(before, Arrive(id, req));
    }

    /** Everything up to the first await: the quote is resolved here, and a fee that needs no decryption is verified. */
    method OnRequest(id: nat, req: Request) returns (error: Option<RelayError>)
      requires Valid() && id !in served
      modifies this
      ensures Valid() && trace == old(trace) + [Arrive(id, req)]
      ensures error == old(FirstError(req)) && (error.Some? ==> live == old(live) && busy == old(busy))
    {
      assert id !in live by { LocksHaveOneHolder(cfg, trace); }
      ghost var before := View();
      var quote := fees.ResolveQuote(req.chainId, req.feesCacheId, now);
      var selector := Opening(cfg, req, quote);
      if selector.Ok? && !Deferred(selector.value) {
        error := SettleAtOnce(id, req, quote, selector.value);
        return;
      }
      served := served + {id};
      if selector.Ok? {
        live := live[id := Verifying(req, quote.value, selector.value)];
      }
      Record(before, Arrive(id, req));
      return if selector.Err? then Some(selector.error) else None;
    }

    /** The fee note is decrypted: compare it with the schedule the request arrived with. */
    method OnFeeChecked(id: nat) returns (error: Option<RelayError>)
      requires Valid() && id in live && live[id].Verifying?
      modifies this
      ensures Valid() && trace == old(trace) + [FeeChecked(id)]
      ensures var l := old(live)[id];
              error == EntryError(old(busy), l.req, Settle(cfg, l.req, l.schedule, l.selector))
      ensures error.Some? ==> live == old(live) - {id} && busy == old(busy)
    {
      ghost var before := View();
      var l := live[id];
      error := TakeLock(id, l.req, Settle(cfg, l.req, l.schedule, l.selector));
      Record(before, FeeChecked(id));
    }

    /** The gas estimate is in: check for a duplicate, then submit with a fifth more gas. */
    method OnGasEstimate(id: nat, gas: Option<nat>) returns (next: Next)
      requires Valid() && id in live && live[id].Estimating?
      modifies this, dedup
      ensures Valid() && trace == old(trace) + [if gas.Some? then LookUp(id) else GasFailed(id)]
      ensures next.Fail? ==> next.error == if gas.Some? then DuplicateTx else GasEstimationFailed
      ensures next.Fail? ==> live == old(live) - {id} && busy == old(busy) - {old(live)[id].req.chainId}
      ensures next.Submit? ==> gas.Some? && next == Submit(old(live)[id].req, gas.value * 120 / 100)
      ensures next.Submit? ==> live == old(live)[id := Submitting(next.req, old(live)[id].approval, now)]
      ensures gas.Some? ==> (next.Submit? <==> Lookup(old(dedup.entries), KeyFor(old(live)[id].req), now).None?)
    {
      ghost var before := View();
      var l := live[id];
      if gas.None? {
        Release(id);
        Record(before, GasFailed(id));
        return Fail(GasEstimationFailed);
      }
      var prior := dedup.LookupPrior(KeyFor(l.req), now);
      if prior.Some? {
        Release(id);
        Record(before, LookUp(id));
        return Fail(DuplicateTx);
      }
      live := live[id := Submitting(l.req, l.approval, now)];
      Record(before, LookUp(id));
      return Submit(l.req, gas.value * 120 / 100);
    }

    /** The broadcast settled: record it when it succeeded, and release the lock either way. */
    method OnBroadcast(id: nat, txHash: Option<string>) returns (r: Result<string, RelayError>)
      requires Valid() && id in live && live[id].Submitting?
      modifies this, dedup
      ensures Valid() && trace == old(trace) + [if txHash.Some? then SubmitOk(id, txHash.value) else SubmitFailed(id)]
      ensures live == old(live) - {id} && busy == old(busy) - {old(live)[id].req.chainId}
      ensures r == if txHash.Some? then Ok(txHash.value) else Err(SubmissionFailed)
      ensures dedup.entries == if txHash.Some? then old(dedup.entries)[KeyFor(old(live)[id].req) := DedupEntry(txHash.value, now)]
                               else old(dedup.entries)
    {
      ghost var before := View();
      if txHash.None? {
        Release(id);
        Record(before, SubmitFailed(id));
        return Err(SubmissionFailed);
      }
      dedup.Record(KeyFor(live[id].req), txHash.value, now);
      Release(id);
      Record(before, SubmitOk(id, txHash.value));
      return Ok(txHash.value);
    }

    /** A regeneration of quotes started at readAt comes to its end. */
    method RefreshQuotes(chainId: nat, readAt: nat, market: Market) returns (s: Option<FeeSchedule>)
      requires Valid() && readAt <= now
      modifies this, fees
      ensures Valid() && trace == old(trace) + [Regenerate(chainId, readAt, market)]
      ensures s.None? <==> cfg.opts.shieldFeeBps == 10_000
      ensures s.Some? ==> s == SlotOf(fees.byChain, chainId).current
    {
      ghost var before := View();
      s := fees.Regenerate(chainId, readAt, market, now);
      Record(before, Regenerate(chainId, readAt, market));
    }

    method SweepDedup()
      requires Valid()
      modifies this, dedup
      ensures Valid() && trace == old(trace) + [SweepCache]
      ensures dedup.entries == AfterSweep(old(dedup.entries), now)
    {
      ghost var before := View();
      dedup.Sweep(now);
      Record(before, SweepCache);
    }

    method Wait(later: int)
      requires Valid() && now <= later
      modifies this
      ensures Valid() && now == later && trace == old(trace) + [Advance(later)]
    {
      ghost var before := View();
      WaitingKeepsConsistent(fees.Quoted(), cfg.opts, now, later);
      now := later;
      Record(before, Advance(later));
    }
  }
}
