/**
 * A waiting job behind eight unanswered ones that are at least as old: however many ticks run, it is never polled and
 * ends in the dead letters with no attempt made, unless a tick falls between the expiry of the first of them and its own.
 */
module Starvation {
  import opened Wrappers
  import opened Hex
  import opened Classify
  import opened IrisClient
  import opened Jobs
  import opened JobsRepo
  import opened Protocol
  import opened StateMachine
  import opened PollingOrder

  /** Iris does not complete this job's lookup. */
  predicate NoAnswer(cfg: Config, w: World, j: Job) {
    !Attestations(cfg, j.messageBytes, w.iris(j.dedupKey)).Complete?
  }

  /** An unanswered waiting row before row k in the queue, detected no earlier than at the given time. */
  ghost predicate InTheWay(cfg: Config, w: World, order: seq<string>, rows: map<string, Job>, k: string, x: string, since: int) {
    && Waits(rows, k) && Waits(rows, x) && Precedes(order, rows, x, k)
    && since <= rows[x].detectedAt && NoAnswer(cfg, w, rows[x])
  }

  /** No tick falls between the expiry of a row of that time and the expiry of this one. */
  predicate OutsideGap(cfg: Config, since: int, start: Job, now: int) {
    now - since > cfg.maxAttestationAgeMs ==> IsExpired(cfg, now, start)
  }

  /** Eight such rows, and few enough rows in all for row k to be listed. */
  ghost predicate Crowded(cfg: Config, w: World, order: seq<string>, rows: map<string, Job>, k: string, crowd: set<string>, since: int) {
    && TableOk(order, rows) && Waits(rows, k)
    && |AheadOf(order, rows, AwaitingAttestation, k)| < TICK_BATCH
    && |crowd| == IRIS_POLL_CONCURRENCY
    && forall x :: x in crowd ==> InTheWay(cfg, w, order, rows, k, x, since)
  }

  lemma {:induction false} SmallerSet(a: set<string>, b: set<string>)
    requires a <= b
    ensures |a| <= |b|
  {
    if a != {} {
      var x :| x in a;
      SmallerSet(a - {x}, b - {x});
    }
  }

  lemma CrowdIsYoung(cfg: Config, w: World, now: int, order: seq<string>, rows: map<string, Job>, k: string, crowd: set<string>, since: int)
    requires Crowded(cfg, w, order, rows, k, crowd, since) && now - since <= cfg.maxAttestationAgeMs
    ensures |YoungAhead(cfg, now, order, rows, k)| >= IRIS_POLL_CONCURRENCY
  {
    forall x | x in crowd ensures x in YoungAhead(cfg, now, order, rows, k) {
      assert InTheWay(cfg, w, order, rows, k, x, since);
    }
    SmallerSet(crowd, YoungAhead(cfg, now, order, rows, k));
  }

  lemma UnansweredStaysWaiting(cfg: Config, w: World, j: Job, r: Job)
    requires j.state == AwaitingAttestation && NoAnswer(cfg, w, j) && PolledRow(cfg, w, j, r)
    ensures r.state == AwaitingAttestation && r.detectedAt == j.detectedAt && NoAnswer(cfg, w, r)
  {
  }

  /** A row of the crowd stays in the way: it may be polled, but it gets no answer. */
  lemma StaysInTheWay(cfg: Config, w: World, order: seq<string>, now: int, expired: seq<Job>, polled: seq<Job>,
                      was: map<string, Job>, mid: map<string, Job>, rows: map<string, Job>, k: string, x: string, since: int)
    requires TableOk(order, was) && InTheWay(cfg, w, order, was, k, x, since) && now - since <= cfg.maxAttestationAgeMs
    requires WaitingSweep(cfg, w, order, now, expired, polled, was, mid, rows)
    requires k in rows && rows[k] == was[k]
    ensures InTheWay(cfg, w, order, rows, k, x, since)
  {
    RowInTick(cfg, w, order, now, expired, polled, was, mid, rows, x);
    if rows[x] != was[x] {
      UnansweredStaysWaiting(cfg, w, was[x], rows[x]);
    }
  }

  /** No row comes to the front of row k. */
  lemma NobodyPushesIn(cfg: Config, w: World, order: seq<string>, now: int, expired: seq<Job>, polled: seq<Job>,
                       was: map<string, Job>, mid: map<string, Job>, rows: map<string, Job>, k: string)
    requires TableOk(order, was) && Waits(was, k)
    requires WaitingSweep(cfg, w, order, now, expired, polled, was, mid, rows)
    requires k in rows && rows[k] == was[k]
    ensures |AheadOf(order, rows, AwaitingAttestation, k)| <= |AheadOf(order, was, AwaitingAttestation, k)|
  {
    TableStaysOk(cfg, w, order, now, expired, polled, was, mid, rows);
    forall x | x in AheadOf(order, rows, AwaitingAttestation, k) ensures x in AheadOf(order, was, AwaitingAttestation, k) {
      assert x in was;
      if was[x].state == AwaitingAttestation {
        RowInTick(cfg, w, order, now, expired, polled, was, mid, rows, x);
      } else {
        OtherRowInTick(cfg, w, order, now, expired, polled, was, mid, rows, x);
      }
    }
    SmallerSet(AheadOf(order, rows, AwaitingAttestation, k), AheadOf(order, was, AwaitingAttestation, k));
  }

  /** One tick: the row behind the crowd expires when it is past its age, else nothing about it or the crowd changes. */
  lemma CrowdedTick(cfg: Config, w: World, order: seq<string>, now: int, expired: seq<Job>, polled: seq<Job>,
                    was: map<string, Job>, mid: map<string, Job>, rows: map<string, Job>, k: string, crowd: set<string>, since: int)
    requires Crowded(cfg, w, order, was, k, crowd, since) && OutsideGap(cfg, since, was[k], now)
    requires WaitingSweep(cfg, w, order, now, expired, polled, was, mid, rows)
    ensures k in rows && TableOk(order, rows)
    ensures if IsExpired(cfg, now, was[k]) then ExpiredRow(was[k], rows[k], now)
            else rows[k] == was[k] && Crowded(cfg, w, order, rows, k, crowd, since)
  {
    TableStaysOk(cfg, w, order, now, expired, polled, was, mid, rows);
    RowInTick(cfg, w, order, now, expired, polled, was, mid, rows, k);
    if !IsExpired(cfg, now, was[k]) {
      CrowdIsYoung(cfg, w, now, order, was, k, crowd, since);
      forall x | x in crowd ensures InTheWay(cfg, w, order, rows, k, x, since) {
        assert InTheWay(cfg, w, order, was, k, x, since);
        StaysInTheWay(cfg, w, order, now, expired, polled, was, mid, rows, k, x, since);
      }
      NobodyPushesIn(cfg, w, order, now, expired, polled, was, mid, rows, k);
    }
  }

  /** The row is as it was at the start, behind its crowd, or it has expired from that without a change before. */
  ghost predicate Starved(cfg: Config, w: World, order: seq<string>, rows: map<string, Job>, k: string, crowd: set<string>,
                          since: int, start: Job)
  {
    && k in rows && TableOk(order, rows)
    && if rows[k] == start then Crowded(cfg, w, order, rows, k, crowd, since) else ExpiredFrom(start, rows[k])
  }

  ghost predicate ExpiredFrom(start: Job, r: Job) { ExpiredRow(start, r, r.updatedAt) }

  method TickOnce(machine: CctpStateMachine, w: World, ghost k: string, ghost crowd: set<string>, ghost since: int,
                  ghost start: Job)
    returns (ghost now: int)
    requires machine.actor.Valid() && machine.actor.pending.Idle? && start.state == AwaitingAttestation
    modifies machine.actor`now, machine.actor`pending, machine.actor`trace, machine.actor.repo`rows
    ensures machine.actor.Valid() && machine.actor.pending.Idle? && old(machine.actor.trace) <= machine.actor.trace
    ensures old(machine.actor.now) <= now
    ensures old(Starved(machine.actor.cfg, w, machine.actor.repo.order, machine.actor.repo.rows, k, crowd, since, start))
            && OutsideGap(machine.actor.cfg, since, start, now) ==>
              && Starved(machine.actor.cfg, w, machine.actor.repo.order, machine.actor.repo.rows, k, crowd, since, start)
              && (IsExpired(machine.actor.cfg, now, start) ==> ExpiredFrom(start, machine.actor.repo.rows[k]))
  {
    ghost var cfg, order, was := machine.actor.cfg, machine.actor.repo.order, machine.actor.repo.rows;
    var _, expired, polled, mid, at := machine.TickAwaitingAttestation(w);
    now := at;
    if Starved(cfg, w, order, was, k, crowd, since, start) && OutsideGap(cfg, since, start, at) {
      StarvedTick(cfg, w, order, at, expired, polled, was, mid, machine.actor.repo.rows, k, crowd, since, start);
    }
  }

  lemma StarvedTick(cfg: Config, w: World, order: seq<string>, now: int, expired: seq<Job>, polled: seq<Job>,
                    was: map<string, Job>, mid: map<string, Job>, rows: map<string, Job>, k: string, crowd: set<string>,
                    since: int, start: Job)
    requires Starved(cfg, w, order, was, k, crowd, since, start) && start.state == AwaitingAttestation
    requires OutsideGap(cfg, since, start, now) && WaitingSweep(cfg, w, order, now, expired, polled, was, mid, rows)
    ensures Starved(cfg, w, order, rows, k, crowd, since, start)
    ensures IsExpired(cfg, now, start) ==> ExpiredFrom(start, rows[k])
  {
    if was[k] == start {
      CrowdedTick(cfg, w, order, now, expired, polled, was, mid, rows, k, crowd, since);
    } else {
      TableStaysOk(cfg, w, order, now, expired, polled, was, mid, rows);
      OtherRowInTick(cfg, w, order, now, expired, polled, was, mid, rows, k);
    }
  }

  /** All these ticks keep clear of the gap. */
  ghost predicate NoneInGap(cfg: Config, since: int, start: Job, times: seq<int>) {
    forall t :: t in times ==> OutsideGap(cfg, since, start, t)
  }

  /** Any number of ticks, then one after the attestation age: the row has expired and was never polled. */
  method TickUntilExpired(machine: CctpStateMachine, w: World, k: string, ghost crowd: set<string>, ghost since: int, ticks: nat)
    returns (ghost times: seq<int>)
    requires machine.actor.Valid() && machine.actor.pending.Idle?
    requires Crowded(machine.actor.cfg, w, machine.actor.repo.order, machine.actor.repo.rows, k, crowd, since)
    modifies machine.actor`now, machine.actor`pending, machine.actor`trace, machine.actor.repo`rows
    ensures machine.actor.Valid() && machine.actor.pending.Idle? && old(machine.actor.trace) <= machine.actor.trace
    ensures |times| == ticks
    ensures NoneInGap(machine.actor.cfg, since, old(machine.actor.repo.rows)[k], times) ==>
              k in machine.actor.repo.rows && ExpiredFrom(old(machine.actor.repo.rows)[k], machine.actor.repo.rows[k])
  {
    var start := machine.actor.repo.rows[k];
    times := [];
    for i := 0 to ticks
      invariant machine.actor.Valid() && machine.actor.pending.Idle? && old(machine.actor.trace) <= machine.actor.trace
      invariant |times| == i && machine.actor.repo.order == old(machine.actor.repo.order)
      invariant NoneInGap(machine.actor.cfg, since, start, times) ==>
                  Starved(machine.actor.cfg, w, machine.actor.repo.order, machine.actor.repo.rows, k, crowd, since, start)
    {
      var at := TickOnce(machine, w, k, crowd, since, start);
      GapJoin(machine.actor.cfg, since, start, times, at);
      times := times + [at];
    }
    machine.actor.Wait(start.detectedAt + machine.actor.cfg.maxAttestationAgeMs + 1);
    var _ := TickOnce(machine, w, k, crowd, since, start);
  }

  lemma GapJoin(cfg: Config, since: int, start: Job, times: seq<int>, at: int)
    ensures NoneInGap(cfg, since, start, times + [at]) ==> NoneInGap(cfg, since, start, times) && OutsideGap(cfg, since, start, at)
  {
    if NoneInGap(cfg, since, start, times + [at]) {
      assert at in times + [at];
      forall t | t in times ensures OutsideGap(cfg, since, start, t) {
        assert t in times + [at];
      }
    }
  }

  /** A process on a table that a run has left, ticking until the row behind the crowd has expired. */
  method ResumeUntilExpired(cfg: Config, order: seq<string>, rows: map<string, Job>, now: int, ghost left: seq<Event>, w: World,
                            k: string, ghost crowd: set<string>, ghost since: int, ticks: nat)
    returns (actor: Actor, ghost times: seq<int>)
    requires TableOk(order, rows) && Run(cfg, left) == Some(Sys(rows, now, Idle))
    requires Crowded(cfg, w, order, rows, k, crowd, since)
    ensures actor.Valid() && actor.cfg == cfg && left <= actor.trace && |times| == ticks
    ensures NoneInGap(cfg, since, rows[k], times) ==> k in actor.repo.rows && ExpiredFrom(rows[k], actor.repo.rows[k])
  {
    actor := new Actor.Resume(cfg, order, rows, now, left);
    var machine := new CctpStateMachine(actor);
    times := TickUntilExpired(machine, w, k, crowd, since, ticks);
  }

  // ----- eight messages claimed at one time and a ninth claimed later -----

  predicate DistinctIds(ms: seq<IndexedMessageSent>) { forall i, j :: 0 <= i < j < |ms| ==> ms[i].id != ms[j].id }

  ghost predicate Relayable(cfg: Config, m: IndexedMessageSent) {
    && FaithfulRow(m)
    && ClassifyMessageForRelay(m.messageBytes, cfg.knownRecipients, HookRouter(cfg, m.destinationDomain)).Relay?
  }

  function ClaimedNow(cfg: Config, m: IndexedMessageSent, now: int): Job {
    ClaimedJob(m, cfg.knownRecipients, HookRouter(cfg, m.destinationDomain), false, now)
  }

  function WaitingNow(cfg: Config, m: IndexedMessageSent, now: int): Job { ApplyPatch(ClaimedNow(cfg, m, now), TO_AWAITING, now) }

  function Order(ms: seq<IndexedMessageSent>): seq<string> { seq(|ms|, i requires 0 <= i < |ms| => ms[i].id) }

  /** One row per message. */
  function Table(ms: seq<IndexedMessageSent>, row: IndexedMessageSent -> Job): map<string, Job> {
    if ms == [] then map[] else Table(ms[..|ms| - 1], row)[ms[|ms| - 1].id := row(ms[|ms| - 1])]
  }

  function Rows(cfg: Config, ms: seq<IndexedMessageSent>): map<string, Job> { Table(ms, m => WaitingNow(cfg, m, 0)) }

  /** Each message is claimed and put in the Iris queue, all at time 0. */
  function Setup(ms: seq<IndexedMessageSent>): seq<Event> {
    if ms == [] then []
    else Setup(ms[..|ms| - 1]) + [Claim(ms[|ms| - 1], false)] + [StartAwaiting(ms[|ms| - 1].id, 0)]
  }

  lemma {:induction false} TableOf(ms: seq<IndexedMessageSent>, row: IndexedMessageSent -> Job)
    requires DistinctIds(ms)
    ensures forall i :: 0 <= i < |ms| ==> ms[i].id in Table(ms, row) && Table(ms, row)[ms[i].id] == row(ms[i])
    ensures forall k :: k in Table(ms, row) ==> exists i :: 0 <= i < |ms| && ms[i].id == k
  {
    if ms != [] {
      TableOf(ms[..|ms| - 1], row);
    }
  }

  lemma RowAt(cfg: Config, ms: seq<IndexedMessageSent>, i: nat)
    requires DistinctIds(ms) && i < |ms|
    ensures ms[i].id in Rows(cfg, ms) && Rows(cfg, ms)[ms[i].id] == WaitingNow(cfg, ms[i], 0)
  {
    TableOf(ms, m => WaitingNow(cfg, m, 0));
  }

  lemma KeyOfRow(cfg: Config, ms: seq<IndexedMessageSent>, k: string) returns (i: nat)
    requires DistinctIds(ms) && k in Rows(cfg, ms)
    ensures i < |ms| && ms[i].id == k
  {
    TableOf(ms, m => WaitingNow(cfg, m, 0));
    i :| 0 <= i < |ms| && ms[i].id == k;
  }

  /** The claimed message as a row, as far as it matters here. */
  lemma ClaimedFresh(cfg: Config, m: IndexedMessageSent, now: int)
    requires Relayable(cfg, m)
    ensures ClaimedNow(cfg, m, now).state == Detected && WaitingNow(cfg, m, now).state == AwaitingAttestation
    ensures WaitingNow(cfg, m, now).dedupKey == m.id && WaitingNow(cfg, m, now).messageBytes == m.messageBytes
    ensures WaitingNow(cfg, m, now).detectedAt == now && WaitingNow(cfg, m, now).pollAttempts == 0
  {
  }

  lemma ClaimStep(cfg: Config, rows: map<string, Job>, m: IndexedMessageSent, now: int)
    requires Relayable(cfg, m) && m.id !in rows
    ensures Step(cfg, Sys(rows, now, Idle), Claim(m, false)) == Some(Sys(rows[m.id := ClaimedNow(cfg, m, now)], now, Idle))
  {
  }

  lemma StartStep(cfg: Config, rows: map<string, Job>, m: IndexedMessageSent, now: int)
    requires cfg.irisMode.RealIris? && Relayable(cfg, m)
    ensures Step(cfg, Sys(rows[m.id := ClaimedNow(cfg, m, now)], now, Idle), StartAwaiting(m.id, now))
         == Some(Sys(rows[m.id := WaitingNow(cfg, m, now)], now, Idle))
  {
    ClaimedFresh(cfg, m, now);
    assert rows[m.id := ClaimedNow(cfg, m, now)][m.id := WaitingNow(cfg, m, now)] == rows[m.id := WaitingNow(cfg, m, now)];
  }

  lemma ClaimAndStart(cfg: Config, before: seq<Event>, rows: map<string, Job>, m: IndexedMessageSent, now: int)
    requires cfg.irisMode.RealIris? && Relayable(cfg, m) && m.id !in rows
    requires Run(cfg, before) == Some(Sys(rows, now, Idle))
    ensures Run(cfg, before + [Claim(m, false)] + [StartAwaiting(m.id, now)])
         == Some(Sys(rows[m.id := WaitingNow(cfg, m, now)], now, Idle))
  {
    ClaimStep(cfg, rows, m, now);
    RunExtend(cfg, before, Claim(m, false));
    StartStep(cfg, rows, m, now);
    RunExtend(cfg, before + [Claim(m, false)], StartAwaiting(m.id, now));
  }

  /** The table of waiting rows is one that a run reaches. */
  lemma {:induction false} SetupRuns(cfg: Config, ms: seq<IndexedMessageSent>)
    requires cfg.irisMode.RealIris? && DistinctIds(ms) && forall i :: 0 <= i < |ms| ==> Relayable(cfg, ms[i])
    ensures Run(cfg, Setup(ms)) == Some(Sys(Rows(cfg, ms), 0, Idle))
  {
    if ms != [] {
      var init, m := ms[..|ms| - 1], ms[|ms| - 1];
      SetupRuns(cfg, init);
      TableOf(init, other => WaitingNow(cfg, other, 0));
      ClaimAndStart(cfg, Setup(init), Rows(cfg, init), m, 0);
    }
  }

  lemma RowWaits(cfg: Config, ms: seq<IndexedMessageSent>, i: nat)
    requires DistinctIds(ms) && i < |ms| && Relayable(cfg, ms[i])
    ensures Waits(Rows(cfg, ms), ms[i].id)
    ensures var j := Rows(cfg, ms)[ms[i].id];
            j.dedupKey == ms[i].id && j.messageBytes == ms[i].messageBytes && j.detectedAt == 0 && j.pollAttempts == 0
  {
    RowAt(cfg, ms, i);
    ClaimedFresh(cfg, ms[i], 0);
  }

  function Names(order: seq<string>, n: nat): set<string>
    requires n <= |order|
  {
    set i | 0 <= i < n :: order[i]
  }

  lemma {:induction false} ManyNames(order: seq<string>, n: nat)
    requires Distinct(order) && n <= |order|
    ensures |Names(order, n)| == n
  {
    if n > 0 {
      ManyNames(order, n - 1);
      assert Names(order, n) == Names(order, n - 1) + {order[n - 1]};
      assert order[n - 1] !in Names(order, n - 1);
    }
  }

  /** Eight messages at time 0 and the ninth after them. */
  function SetupNine(ms: seq<IndexedMessageSent>, later: nat): seq<Event>
    requires |ms| == 9
  {
    Setup(ms[..8]) + [Advance(later)] + [Claim(ms[8], false)] + [StartAwaiting(ms[8].id, later)]
  }

  function NineRows(cfg: Config, ms: seq<IndexedMessageSent>, later: nat): map<string, Job>
    requires |ms| == 9
  {
    Rows(cfg, ms[..8])[ms[8].id := WaitingNow(cfg, ms[8], later)]
  }

  lemma NinthIsNew(cfg: Config, ms: seq<IndexedMessageSent>)
    requires |ms| == 9 && DistinctIds(ms)
    ensures DistinctIds(ms[..8]) && ms[8].id !in Rows(cfg, ms[..8])
  {
    var eight := ms[..8];
    assert forall i :: 0 <= i < 8 ==> eight[i].id != ms[8].id;
    TableOf(eight, m => WaitingNow(cfg, m, 0));
  }

  lemma NineRun(cfg: Config, ms: seq<IndexedMessageSent>, later: nat)
    requires cfg.irisMode.RealIris? && |ms| == 9 && DistinctIds(ms) && forall i :: 0 <= i < |ms| ==> Relayable(cfg, ms[i])
    ensures Run(cfg, SetupNine(ms, later)) == Some(Sys(NineRows(cfg, ms, later), later, Idle))
  {
    NinthIsNew(cfg, ms);
    SetupRuns(cfg, ms[..8]);
    RunExtend(cfg, Setup(ms[..8]), Advance(later));
    ClaimAndStart(cfg, Setup(ms[..8]) + [Advance(later)], Rows(cfg, ms[..8]), ms[8], later);
  }

  /** What the nine rows look like. */
  lemma NineWait(cfg: Config, ms: seq<IndexedMessageSent>, later: nat, i: nat)
    requires |ms| == 9 && DistinctIds(ms) && i < 9 && Relayable(cfg, ms[i])
    ensures var rows := NineRows(cfg, ms, later);
            && Waits(rows, ms[i].id)
            && rows[ms[i].id].dedupKey == ms[i].id && rows[ms[i].id].messageBytes == ms[i].messageBytes
            && rows[ms[i].id].detectedAt == (if i < 8 then 0 else later) && rows[ms[i].id].pollAttempts == 0
  {
    if i < 8 {
      NinthIsNew(cfg, ms);
      assert ms[i] == ms[..8][i];
      RowWaits(cfg, ms[..8], i);
    } else {
      ClaimedFresh(cfg, ms[8], later);
    }
  }

  lemma NineTable(cfg: Config, ms: seq<IndexedMessageSent>, later: nat)
    requires |ms| == 9 && DistinctIds(ms) && forall i :: 0 <= i < |ms| ==> Relayable(cfg, ms[i])
    ensures TableOk(Order(ms), NineRows(cfg, ms, later))
  {
    var order, rows := Order(ms), NineRows(cfg, ms, later);
    NinthIsNew(cfg, ms);
    forall k | k in rows ensures k in order && rows[k].dedupKey == k {
      if k == ms[8].id {
        assert order[8] == k;
        NineWait(cfg, ms, later, 8);
      } else {
        var i := KeyOfRow(cfg, ms[..8], k);
        assert order[i] == k;
        NineWait(cfg, ms, later, i);
      }
    }
    forall k | k in order ensures k in rows {
      var i :| 0 <= i < |order| && order[i] == k;
      NineWait(cfg, ms, later, i);
    }
  }

  /** The first eight of the nine rows are in the way of the ninth. */
  lemma EightInTheWay(cfg: Config, w: World, ms: seq<IndexedMessageSent>, later: nat, i: nat)
    requires |ms| == 9 && DistinctIds(ms) && i < 8 && Relayable(cfg, ms[i]) && Relayable(cfg, ms[8])
    requires !Attestations(cfg, ms[i].messageBytes, w.iris(ms[i].id)).Complete?
    ensures InTheWay(cfg, w, Order(ms), NineRows(cfg, ms, later), ms[8].id, ms[i].id, 0)
  {
    NineWait(cfg, ms, later, i);
    NineWait(cfg, ms, later, 8);
    IndexIsPosition(Order(ms), i);
    IndexIsPosition(Order(ms), 8);
  }

  lemma NinthIsCrowded(cfg: Config, w: World, ms: seq<IndexedMessageSent>, later: nat)
    requires |ms| == 9 && DistinctIds(ms) && forall i :: 0 <= i < |ms| ==> Relayable(cfg, ms[i])
    requires forall i :: 0 <= i < 8 ==> !Attestations(cfg, ms[i].messageBytes, w.iris(ms[i].id)).Complete?
    ensures Crowded(cfg, w, Order(ms), NineRows(cfg, ms, later), ms[8].id, Names(Order(ms), 8), 0)
  {
    var order, rows, k := Order(ms), NineRows(cfg, ms, later), ms[8].id;
    NineTable(cfg, ms, later);
    NineWait(cfg, ms, later, 8);
    ManyNames(order, 8);
    ManyNames(order, 9);
    forall x | x in Names(order, 8) ensures InTheWay(cfg, w, order, rows, k, x, 0) {
      var i :| 0 <= i < 8 && order[i] == x;
      EightInTheWay(cfg, w, ms, later, i);
    }
    forall x | x in AheadOf(order, rows, AwaitingAttestation, k) ensures x in Names(order, 9) {
      var i :| 0 <= i < |order| && order[i] == x;
    }
    SmallerSet(AheadOf(order, rows, AwaitingAttestation, k), Names(order, 9));
  }

  /**
   * Nine relayable messages, the ninth claimed a while after the eight others, which are left unanswered: however often
   * the process ticks, unless a tick falls between the expiry of the eight and that of the ninth, the ninth ends in the
   * dead letters as expired without having been polled once. Claimed all at one time there is no such moment.
   */
  method NinthExpiresUnpolled(cfg: Config, ms: seq<IndexedMessageSent>, later: nat, w: World, ticks: nat)
    returns (actor: Actor, ghost times: seq<int>)
    requires cfg.irisMode.RealIris? && |ms| == 9 && DistinctIds(ms)
    requires forall i :: 0 <= i < |ms| ==> Relayable(cfg, ms[i])
    requires forall i :: 0 <= i < 8 ==> !Attestations(cfg, ms[i].messageBytes, w.iris(ms[i].id)).Complete?
    ensures actor.Valid() && actor.cfg == cfg && SetupNine(ms, later) <= actor.trace && |times| == ticks
    ensures later == 0 || (forall t :: t in times ==> !(cfg.maxAttestationAgeMs < t <= cfg.maxAttestationAgeMs + later)) ==>
              && ms[8].id in actor.repo.rows
              && actor.repo.rows[ms[8].id].state == DeadLetter
              && actor.repo.rows[ms[8].id].deadLetterReason == Some(Reason.Expired)
              && actor.repo.rows[ms[8].id].pollAttempts == 0
  {
    NineRun(cfg, ms, later);
    NineTable(cfg, ms, later);
    NinthIsCrowded(cfg, w, ms, later);
    NineWait(cfg, ms, later, 8);
    actor, times := ResumeUntilExpired(cfg, Order(ms), NineRows(cfg, ms, later), later, SetupNine(ms, later), w, ms[8].id,
                                       Names(Order(ms), 8), 0, ticks);
    GapOfNinth(cfg, NineRows(cfg, ms, later)[ms[8].id], later, times);
  }

  lemma GapOfNinth(cfg: Config, start: Job, later: nat, times: seq<int>)
    requires start.detectedAt == later
    ensures NoneInGap(cfg, 0, start, times) <==>
            later == 0 || forall t :: t in times ==> !(cfg.maxAttestationAgeMs < t <= cfg.maxAttestationAgeMs + later)
  {
    forall t | t in times
      ensures OutsideGap(cfg, 0, start, t) <==> !(cfg.maxAttestationAgeMs < t <= cfg.maxAttestationAgeMs + later)
    {
    }
  }

  // ----- such messages exist -----

  /** A burn message of version 1 with all other fields zero. */
  function PlainBytes(): string { "0x" + Zeros(303) + "1" + Zeros(448) }

  function PlainMessage(id: string): IndexedMessageSent {
    IndexedMessageSent(id, 0, 0, 0, PlainBytes(), Keccak256(PlainBytes()), "0x", 0, 0)
  }

  function PlainConfig(maxAge: nat): Config { Config({ZeroCaller()}, map[], RealIris, 0, maxAge) }

  lemma {:induction false} ZerosAreZero(n: nat)
    ensures AllHex(Zeros(n)) && HexVal(Zeros(n)) == 0
  {
    if n > 0 {
      ZerosAreZero(n - 1);
      assert Zeros(n)[..n - 1] == Zeros(n - 1);
    }
  }

  lemma PlainFields()
    ensures var hex := PlainBytes()[2..];
            && IsHexBytes(PlainBytes()) && |hex| == 752
            && Slice(hex, 8, 16) == Slice(hex, 16, 24) == Zeros(8)
            && Slice(hex, 368, 432) == Slice(hex, 216, 280) == Zeros(64)
            && Slice(hex, 296, 304) == Zeros(7) + "1"
  {
  }

  lemma PlainIsRelayable(id: string, maxAge: nat)
    ensures Relayable(PlainConfig(maxAge), PlainMessage(id))
  {
    var hex := PlainBytes()[2..];
    PlainFields();
    ZerosAreZero(8);
    ZerosAreZero(7);
    assert (Zeros(7) + "1")[..7] == Zeros(7);
    assert BodyVersionOf(hex) == 1;
    assert Lower(Zeros(64)) == Zeros(64);
    assert MintRecipientOf(hex) == ZeroCaller() && DestinationCallerOf(hex) == ZeroCaller();
  }

  /** An unreachable Iris. */
  function Silence(): World {
    World(_ => NetworkFailure("unreachable"), _ => Accepted("0x"), (_, _) => NoReceipt, (_, _) => InMempool)
  }

  const NAMES := ["0", "1", "2", "3", "4", "5", "6", "7", "8"]

  function NineMessages(): seq<IndexedMessageSent> { seq(9, i requires 0 <= i < 9 => PlainMessage(NAMES[i])) }

  lemma NamesDiffer()
    ensures forall i, j :: 0 <= i < j < 9 ==> NAMES[i] != NAMES[j]
  {
    assert forall i, j :: 0 <= i < j < 9 ==> NAMES[i][0] < NAMES[j][0];
  }

  lemma NinePlain(maxAge: nat)
    ensures |NineMessages()| == 9 && DistinctIds(NineMessages()) && NineMessages()[8].id == "8"
    ensures forall i :: 0 <= i < 9 ==> Relayable(PlainConfig(maxAge), NineMessages()[i])
    ensures forall i :: 0 <= i < 9 ==>
              !Attestations(PlainConfig(maxAge), NineMessages()[i].messageBytes, Silence().iris(NineMessages()[i].id)).Complete?
  {
    forall i | 0 <= i < 9 ensures Relayable(PlainConfig(maxAge), NineMessages()[i]) {
      PlainIsRelayable(NAMES[i], maxAge);
    }
    NamesDiffer();
  }

  /**
   * Runs of the actor in which the ninth expires without a poll: with all nine claimed at one time whatever the clock
   * does, and with the ninth claimed later whatever it does outside the gap, in which case no tie is left to be broken.
   */
  method StarvationHappens(maxAge: nat, later: nat, ticks: nat) returns (actor: Actor, ghost times: seq<int>)
    ensures actor.Valid() && |times| == ticks
    ensures later == 0 || (forall t :: t in times ==> !(maxAge < t <= maxAge + later)) ==>
              && "8" in actor.repo.rows && actor.repo.rows["8"].state == DeadLetter
              && actor.repo.rows["8"].deadLetterReason == Some(Reason.Expired) && actor.repo.rows["8"].pollAttempts == 0
  {
    NinePlain(maxAge);
    actor, times := NinthExpiresUnpolled(PlainConfig(maxAge), NineMessages(), later, Silence(), ticks);
  }
}
