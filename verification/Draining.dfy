/**
 * From whatever a crash left behind, ticks alone finish every job once the outside answers: the listings, the poll
 * limit and the rows ahead of a job only decide how many ticks that takes.
 */
module Draining {
  import opened Wrappers
  import opened IrisClient
  import opened Jobs
  import opened JobsRepo
  import opened Protocol
  import opened RunRecovery
  import opened StateMachine
  import opened PollingOrder

  // ----- how far a table is from being finished -----

  function Steps(state: JobState): nat {
    match state
    case Detected => 4
    case AwaitingAttestation => 3
    case Attested => 2
    case Submitted => 1
    case _ => 0
  }

  function Total(order: seq<string>, rows: map<string, Job>): nat
    requires forall k :: k in order ==> k in rows
  {
    if order == [] then 0
    else Total(order[..|order| - 1], rows) + Steps(rows[order[|order| - 1]].state)
  }

  /** No row of the table is further from its end than before. */
  ghost predicate NoneBack(was: map<string, Job>, rows: map<string, Job>) {
    was.Keys == rows.Keys && forall k {:trigger Steps(rows[k].state)} :: k in was ==> Steps(rows[k].state) <= Steps(was[k].state)
  }

  lemma {:induction false} TotalShrinks(order: seq<string>, was: map<string, Job>, rows: map<string, Job>)
    requires (forall k :: k in order ==> k in was) && NoneBack(was, rows)
    ensures Total(order, rows) <= Total(order, was)
    ensures (exists k :: k in order && Steps(rows[k].state) < Steps(was[k].state)) ==> Total(order, rows) < Total(order, was)
  {
    if order != [] {
      var init, last := order[..|order| - 1], order[|order| - 1];
      assert order == init + [last];
      TotalShrinks(init, was, rows);
    }
  }

  lemma {:induction false} TotalBound(order: seq<string>, rows: map<string, Job>)
    requires forall k :: k in order ==> k in rows
    ensures Total(order, rows) <= 4 * |order|
  {
    if order != [] {
      TotalBound(order[..|order| - 1], rows);
    }
  }

  // ----- what helps a job -----

  /** The outside answers well about this job, and no retry of it is due later than the given time. */
  ghost predicate Helped(cfg: Config, w: World, due: int, j: Job) {
    Terminal(j.state)
    || (&& StateFields(j)
        && Attestations(cfg, j.messageBytes, w.iris(j.dedupKey)).Complete?
        && w.submit(j.dedupKey).Accepted? && Succeeded(w.receipt(j.destinationDomain, w.submit(j.dedupKey).hash))
        && (j.state == Submitted ==> Succeeded(ReceiptOf(w, j)))
        && DueAt(j, due))
  }

  ghost predicate AllHelped(cfg: Config, w: World, due: int, rows: map<string, Job>) {
    forall k {:trigger Helped(cfg, w, due, rows[k])} :: k in rows ==> Helped(cfg, w, due, rows[k])
  }

  /** Given up for its age while it waited for Iris. */
  predicate ExpiredWaiting(cfg: Config, was: Job, r: Job) {
    && (was.state == Detected || was.state == AwaitingAttestation)
    && r.state == DeadLetter && r.deadLetterReason == Some(Reason.Expired)
    && r.updatedAt - was.detectedAt > cfg.maxAttestationAgeMs
  }

  /** The same job, no further from its end; if it has ended, it was delivered or given up for its age while it waited. */
  ghost predicate OnTheWay(cfg: Config, was: Job, r: Job) {
    && SameIdentity(was, r) && Steps(r.state) <= Steps(was.state)
    && (Terminal(was.state) ==> r == was)
    && (!Terminal(was.state) && Terminal(r.state) ==> r.state == Delivered || ExpiredWaiting(cfg, was, r))
  }

  ghost predicate AllOnTheWay(cfg: Config, was: map<string, Job>, rows: map<string, Job>) {
    was.Keys == rows.Keys && forall k {:trigger OnTheWay(cfg, was[k], rows[k])} :: k in was ==> OnTheWay(cfg, was[k], rows[k])
  }

  lemma FurtherOnTheWay(cfg: Config, a: map<string, Job>, b: map<string, Job>, c: map<string, Job>)
    requires AllOnTheWay(cfg, a, b) && AllOnTheWay(cfg, b, c)
    ensures AllOnTheWay(cfg, a, c)
  {
    forall k | k in a ensures OnTheWay(cfg, a[k], c[k]) {
      assert OnTheWay(cfg, a[k], b[k]) && OnTheWay(cfg, b[k], c[k]);
    }
  }

  // ----- one row in one sweep -----

  /** The sweep with this promise may list the job, and finds it due. */
  ghost predicate TakenBy(cfg: Config, w: World, due: int, p: Promise, j: Job) {
    match p
    case StartedAt(c, _) => c == cfg && j.state == Detected
    case ExpiredAt(now) => j.state == AwaitingAttestation && IsExpired(cfg, now, j)
    case PolledBy(c, v) => c == cfg && v == w && j.state == AwaitingAttestation
    case AttemptedAt(v, now) => v == w && j.state == Attested && due <= now
    case CheckedBy(c, v, _) => c == cfg && v == w && j.state == Submitted
  }

  /** A sweep that takes a helped job brings it nearer to its end, and leaves it helped. */
  lemma TakenAdvances(cfg: Config, w: World, due: int, p: Promise, j: Job, r: Job)
    requires Helped(cfg, w, due, j) && TakenBy(cfg, w, due, p, j) && Kept(p, j, r)
    ensures Helped(cfg, w, due, r) && OnTheWay(cfg, j, r) && Steps(r.state) < Steps(j.state)
  {
  }

  // ----- one sweep -----

  ghost predicate AllTaken(cfg: Config, w: World, due: int, p: Promise, jobs: seq<Job>) {
    forall j {:trigger TakenBy(cfg, w, due, p, j)} :: j in jobs ==> TakenBy(cfg, w, due, p, j)
  }

  lemma RowSwept(cfg: Config, w: World, due: int, jobs: seq<Job>, was: map<string, Job>, rows: map<string, Job>, p: Promise,
                 k: string)
    requires WellKeyed(was) && AllHelped(cfg, w, due, was) && AllTaken(cfg, w, due, p, jobs)
    requires Swept(jobs, |jobs|, was, rows, p) && k in was
    ensures k in rows && rows[k].dedupKey == k && Helped(cfg, w, due, rows[k]) && OnTheWay(cfg, was[k], rows[k])
    ensures was[k] in jobs ==> Steps(rows[k].state) < Steps(was[k].state)
  {
    SweptRow(jobs, was, rows, p, k);
    if was[k] in jobs {
      TakenAdvances(cfg, w, due, p, was[k], rows[k]);
    }
  }

  /** Each job is on its way, and unless nothing has changed some job is nearer to its end. */
  ghost predicate Nearer(cfg: Config, order: seq<string>, was: map<string, Job>, rows: map<string, Job>) {
    && TableOk(order, was) && TableOk(order, rows) && AllOnTheWay(cfg, was, rows)
    && (rows == was || Total(order, rows) < Total(order, was))
  }

  lemma NearerJoin(cfg: Config, order: seq<string>, a: map<string, Job>, b: map<string, Job>, c: map<string, Job>)
    requires Nearer(cfg, order, a, b) && Nearer(cfg, order, b, c)
    ensures Nearer(cfg, order, a, c) && (c == a ==> b == a)
  {
    FurtherOnTheWay(cfg, a, b, c);
  }

  lemma SweptTable(cfg: Config, w: World, due: int, order: seq<string>, jobs: seq<Job>, was: map<string, Job>,
                   rows: map<string, Job>, p: Promise)
    requires TableOk(order, was) && AllHelped(cfg, w, due, was) && AllTaken(cfg, w, due, p, jobs)
    requires Swept(jobs, |jobs|, was, rows, p)
    ensures TableOk(order, rows) && AllHelped(cfg, w, due, rows) && AllOnTheWay(cfg, was, rows)
  {
    forall k | k in was
      ensures k in rows && rows[k].dedupKey == k && Helped(cfg, w, due, rows[k]) && OnTheWay(cfg, was[k], rows[k])
    {
      RowSwept(cfg, w, due, jobs, was, rows, p, k);
    }
  }

  lemma SweepAdvances(cfg: Config, w: World, due: int, order: seq<string>, jobs: seq<Job>, was: map<string, Job>,
                      rows: map<string, Job>, p: Promise)
    requires TableOk(order, was) && AllHelped(cfg, w, due, was) && AllTaken(cfg, w, due, p, jobs)
    requires Swept(jobs, |jobs|, was, rows, p)
    ensures AllHelped(cfg, w, due, rows) && Nearer(cfg, order, was, rows) && (rows == was ==> jobs == [])
  {
    SweptTable(cfg, w, due, order, jobs, was, rows, p);
    if jobs == [] {
      assert rows == was by {
        forall k | k in was ensures rows[k] == was[k] {
          SweptRow(jobs, was, rows, p, k);
        }
      }
    } else {
      var k := jobs[0].dedupKey;
      assert was[k] == jobs[0];
      RowSwept(cfg, w, due, jobs, was, rows, p, k);
      SomeNearer(cfg, order, was, rows, k);
    }
  }

  lemma SomeNearer(cfg: Config, order: seq<string>, was: map<string, Job>, rows: map<string, Job>, k: string)
    requires TableOk(order, was) && AllOnTheWay(cfg, was, rows) && k in was && Steps(rows[k].state) < Steps(was[k].state)
    ensures Total(order, rows) < Total(order, was)
  {
    forall x | x in was ensures Steps(rows[x].state) <= Steps(was[x].state) {
      assert OnTheWay(cfg, was[x], rows[x]);
    }
    TotalShrinks(order, was, rows);
  }

  // ----- one tick -----

  ghost predicate AllDone(rows: map<string, Job>) { forall k :: k in rows ==> Terminal(rows[k].state) }

  ghost predicate NoneIn(rows: map<string, Job>, state: JobState) { forall k :: k in rows ==> rows[k].state != state }

  lemma ListingTaken(order: seq<string>, rows: map<string, Job>, state: JobState)
    requires TableOk(order, rows)
    ensures var l := Listed(order, rows, state, TICK_BATCH);
            && (forall j :: j in l ==> j.state == state)
            && (l == [] ==> NoneIn(rows, state))
  {
    ListingIsOldestRows(order, rows, state, TICK_BATCH);
  }

  lemma {:induction false} ByAgeCounts(cfg: Config, now: int, jobs: seq<Job>)
    ensures |ByAge(cfg, now, jobs, true)| + |ByAge(cfg, now, jobs, false)| == |jobs|
  {
    if jobs != [] {
      ByAgeCounts(cfg, now, jobs[..|jobs| - 1]);
    }
  }

  lemma WaitingTaken(cfg: Config, w: World, due: int, now: int, order: seq<string>, was: map<string, Job>,
                     expired: seq<Job>, polled: seq<Job>)
    requires TableOk(order, was)
    requires var waiting := Listed(order, was, AwaitingAttestation, TICK_BATCH);
             expired == ByAge(cfg, now, waiting, true) && multiset(polled) == multiset(Pollable(cfg, now, waiting))
    ensures AllTaken(cfg, w, due, ExpiredAt(now), expired) && AllTaken(cfg, w, due, PolledBy(cfg, w), polled)
    ensures expired == [] && polled == [] ==> NoneIn(was, AwaitingAttestation)
  {
    var waiting := Listed(order, was, AwaitingAttestation, TICK_BATCH);
    var young := ByAge(cfg, now, waiting, false);
    ListingTaken(order, was, AwaitingAttestation);
    forall j | j in polled ensures j.state == AwaitingAttestation {
      assert j in multiset(polled);
      assert j in Pollable(cfg, now, waiting);
      assert j in young;
    }
    if expired == [] && polled == [] {
      assert |Pollable(cfg, now, waiting)| == |multiset(polled)| == 0;
      ByAgeCounts(cfg, now, waiting);
    }
  }

  /** A good answer about a job is not a rejected lookup. */
  lemma NothingRejects(cfg: Config, w: World, due: int, rows: map<string, Job>, polled: seq<Job>)
    requires AllHelped(cfg, w, due, rows) && Fresh(polled, 0, rows)
    requires forall j :: j in polled ==> j.state == AwaitingAttestation
    ensures AllAnswered(cfg, w, polled, |polled|)
  {
    forall i | 0 <= i < |polled| ensures !Rejects(cfg, w, polled[i]) {
      RejectionThrows(cfg, w, polled[i]);
      assert polled[i] in polled && Helped(cfg, w, due, rows[polled[i].dedupKey]);
    }
  }

  lemma StartAdvances(log: TickLog, cfg: Config, w: World, due: int, order: seq<string>, was: map<string, Job>)
    requires TableOk(order, was) && AllHelped(cfg, w, due, was)
    requires log.started == Listed(order, was, Detected, TICK_BATCH)
    requires Swept(log.started, |log.started|, was, log.afterStart, StartedAt(cfg, log.startedAt))
    ensures AllHelped(cfg, w, due, log.afterStart) && Nearer(cfg, order, was, log.afterStart)
    ensures log.afterStart == was ==> NoneIn(was, Detected)
  {
    ListingTaken(order, was, Detected);
    SweepAdvances(cfg, w, due, order, log.started, was, log.afterStart, StartedAt(cfg, log.startedAt));
  }

  lemma ExpireAdvances(cfg: Config, w: World, due: int, now: int, order: seq<string>, was: map<string, Job>,
                       expired: seq<Job>, mid: map<string, Job>)
    requires TableOk(order, was) && AllHelped(cfg, w, due, was) && AllTaken(cfg, w, due, ExpiredAt(now), expired)
    requires Swept(expired, |expired|, was, mid, ExpiredAt(now))
    ensures AllHelped(cfg, w, due, mid) && Nearer(cfg, order, was, mid) && (mid == was ==> expired == [])
  {
    SweepAdvances(cfg, w, due, order, expired, was, mid, ExpiredAt(now));
  }

  lemma YoungAdvances(cfg: Config, w: World, due: int, order: seq<string>, mid: map<string, Job>, polled: seq<Job>,
                      rows: map<string, Job>)
    requires TableOk(order, mid) && AllHelped(cfg, w, due, mid) && AllTaken(cfg, w, due, PolledBy(cfg, w), polled)
    requires Swept(polled, |polled|, mid, rows, PolledBy(cfg, w))
    ensures AllHelped(cfg, w, due, rows) && Nearer(cfg, order, mid, rows) && (rows == mid ==> polled == [])
    ensures AllAnswered(cfg, w, polled, |polled|)
  {
    forall j | j in polled ensures j.state == AwaitingAttestation {
      assert TakenBy(cfg, w, due, PolledBy(cfg, w), j);
    }
    NothingRejects(cfg, w, due, mid, polled);
    SweepAdvances(cfg, w, due, order, polled, mid, rows, PolledBy(cfg, w));
  }

  lemma PollAdvances(cfg: Config, w: World, due: int, now: int, order: seq<string>, was: map<string, Job>,
                     expired: seq<Job>, polled: seq<Job>, mid: map<string, Job>, rows: map<string, Job>)
    requires TableOk(order, was) && AllHelped(cfg, w, due, was)
    requires WaitingSweep(cfg, w, order, now, expired, polled, was, mid, rows)
    ensures AllHelped(cfg, w, due, rows) && Nearer(cfg, order, was, rows)
    ensures AllAnswered(cfg, w, polled, |polled|)
    ensures rows == was ==> NoneIn(was, AwaitingAttestation)
  {
    WaitingTaken(cfg, w, due, now, order, was, expired, polled);
    ExpireAdvances(cfg, w, due, now, order, was, expired, mid);
    YoungAdvances(cfg, w, due, order, mid, polled, rows);
    NearerJoin(cfg, order, was, mid, rows);
  }

  lemma SendAdvances(log: TickLog, cfg: Config, w: World, due: int, order: seq<string>, was: map<string, Job>)
    requires TableOk(order, was) && AllHelped(cfg, w, due, was) && due <= log.sentAt
    requires log.sent == Listed(order, was, Attested, TICK_BATCH)
    requires Swept(log.sent, |log.sent|, was, log.afterSends, AttemptedAt(w, log.sentAt))
    ensures AllHelped(cfg, w, due, log.afterSends) && Nearer(cfg, order, was, log.afterSends)
    ensures log.afterSends == was ==> NoneIn(was, Attested)
  {
    ListingTaken(order, was, Attested);
    SweepAdvances(cfg, w, due, order, log.sent, was, log.afterSends, AttemptedAt(w, log.sentAt));
  }

  lemma NobodyUnanswered(cfg: Config, w: World, due: int, rows: map<string, Job>, checked: seq<Job>)
    requires AllHelped(cfg, w, due, rows) && Fresh(checked, 0, rows)
    requires forall j :: j in checked ==> j.state == Submitted
    ensures forall i :: 0 <= i < |checked| ==> !Unanswered(w, checked[i])
  {
    forall i | 0 <= i < |checked| ensures !Unanswered(w, checked[i]) {
      assert checked[i] in checked && Helped(cfg, w, due, rows[checked[i].dedupKey]);
    }
  }

  lemma CheckAdvances(log: TickLog, cfg: Config, w: World, due: int, order: seq<string>, was: map<string, Job>,
                      rows: map<string, Job>, ok: bool)
    requires TableOk(order, was) && AllHelped(cfg, w, due, was)
    requires log.checked == Listed(order, was, Submitted, TICK_BATCH)
    requires Swept(log.checked, log.handled, was, rows, CheckedBy(cfg, w, log.checkedFrom))
    requires if ok then log.handled == |log.checked| else log.handled < |log.checked| && Unanswered(w, log.checked[log.handled])
    ensures AllHelped(cfg, w, due, rows) && Nearer(cfg, order, was, rows) && ok
    ensures rows == was ==> NoneIn(was, Submitted)
  {
    ListingTaken(order, was, Submitted);
    NobodyUnanswered(cfg, w, due, was, log.checked);
    SweepAdvances(cfg, w, due, order, log.checked, was, rows, CheckedBy(cfg, w, log.checkedFrom));
  }

  /** A tick with good answers fails nowhere and brings some job nearer to its end, unless all have ended. */
  lemma TickAdvances(log: TickLog, cfg: Config, w: World, due: int, order: seq<string>, was: map<string, Job>,
                     rows: map<string, Job>, ok: bool)
    requires TableOk(order, was) && AllHelped(cfg, w, due, was)
    requires WaitingPart(log, cfg, w, order, was) && SendingPart(log, cfg, w, order, rows, ok)
    requires AllAnswered(cfg, w, log.polled, |log.polled|) ==> due <= log.sentAt
    ensures AllHelped(cfg, w, due, rows) && Nearer(cfg, order, was, rows) && ok
    ensures rows == was ==> AllDone(rows)
  {
    StartAdvances(log, cfg, w, due, order, was);
    PollAdvances(cfg, w, due, log.polledAt, order, log.afterStart, log.expired, log.polled, log.afterExpiry, log.afterPolls);
    SendAdvances(log, cfg, w, due, order, log.afterPolls);
    CheckAdvances(log, cfg, w, due, order, log.afterSends, rows, ok);
    NearerJoin(cfg, order, was, log.afterStart, log.afterPolls);
    NearerJoin(cfg, order, was, log.afterPolls, log.afterSends);
    NearerJoin(cfg, order, was, log.afterSends, rows);
  }

  // ----- many ticks -----

  lemma {:induction false} NothingLeft(order: seq<string>, rows: map<string, Job>, k: string)
    requires (forall x :: x in order ==> x in rows) && Total(order, rows) == 0 && k in order
    ensures Terminal(rows[k].state)
  {
    var init, last := order[..|order| - 1], order[|order| - 1];
    if k == last {
      assert Steps(rows[k].state) == 0;
    } else {
      assert order == init + [last];
      NothingLeft(init, rows, k);
    }
  }

  lemma {:induction false} NothingToDo(order: seq<string>, rows: map<string, Job>)
    requires (forall k :: k in order ==> k in rows) && AllDone(rows)
    ensures Total(order, rows) == 0
  {
    if order != [] {
      NothingToDo(order[..|order| - 1], rows);
    }
  }

  /** One tick of the machine. */
  method TickOn(machine: CctpStateMachine, w: World, ghost due: int)
    requires machine.actor.Valid() && machine.actor.pending.Idle? && due <= machine.actor.now
    requires AllHelped(machine.actor.cfg, w, due, machine.actor.repo.rows)
    modifies machine.actor`now, machine.actor`pending, machine.actor`trace, machine.actor.repo`rows
    ensures machine.actor.Valid() && machine.actor.pending.Idle? && due <= machine.actor.now
    ensures old(machine.actor.trace) <= machine.actor.trace
    ensures AllHelped(machine.actor.cfg, w, due, machine.actor.repo.rows)
    ensures Nearer(machine.actor.cfg, machine.actor.repo.order, old(machine.actor.repo.rows), machine.actor.repo.rows)
    ensures machine.actor.repo.rows == old(machine.actor.repo.rows) ==> AllDone(machine.actor.repo.rows)
  {
    ghost var was := machine.actor.repo.rows;
    var ok, log := machine.Tick(w);
    TickAdvances(log, machine.actor.cfg, w, due, machine.actor.repo.order, was, machine.actor.repo.rows, ok);
  }

  lemma StartsOnTheWay(cfg: Config, rows: map<string, Job>)
    ensures AllOnTheWay(cfg, rows, rows)
  {
  }

  /** As many ticks as the table is steps from its end finish every job of it. */
  method TickUntilDone(machine: CctpStateMachine, w: World, ghost due: int) returns (ticks: nat)
    requires machine.actor.Valid() && machine.actor.pending.Idle? && due <= machine.actor.now
    requires AllHelped(machine.actor.cfg, w, due, machine.actor.repo.rows)
    modifies machine.actor`now, machine.actor`pending, machine.actor`trace, machine.actor.repo`rows
    ensures machine.actor.Valid() && machine.actor.pending.Idle? && old(machine.actor.trace) <= machine.actor.trace
    ensures AllDone(machine.actor.repo.rows) && ticks <= 4 * |machine.actor.repo.order|
    ensures AllOnTheWay(machine.actor.cfg, old(machine.actor.repo.rows), machine.actor.repo.rows)
  {
    ghost var cfg, order, was := machine.actor.cfg, machine.actor.repo.order, machine.actor.repo.rows;
    ticks := Total(machine.actor.repo.order, machine.actor.repo.rows);
    TotalBound(order, was);
    StartsOnTheWay(cfg, was);
    for i := 0 to ticks
      invariant machine.actor.Valid() && machine.actor.pending.Idle? && due <= machine.actor.now
      invariant old(machine.actor.trace) <= machine.actor.trace && machine.actor.repo.order == order
      invariant AllHelped(cfg, w, due, machine.actor.repo.rows) && Nearer(cfg, order, was, machine.actor.repo.rows)
      invariant Total(order, machine.actor.repo.rows) <= ticks - i
    {
      ghost var before := machine.actor.repo.rows;
      TickOn(machine, w, due);
      NearerJoin(cfg, order, was, before, machine.actor.repo.rows);
      if machine.actor.repo.rows == before {
        NothingToDo(order, before);
      }
    }
    ghost var rows := machine.actor.repo.rows;
    forall k | k in rows ensures Terminal(rows[k].state) {
      NothingLeft(order, rows, k);
    }
  }

  // ----- from anywhere -----

  /** No retry of these rows is due later. */
  function LatestRetry(order: seq<string>, rows: map<string, Job>): int
    requires forall k :: k in order ==> k in rows
  {
    if order == [] then 0
    else
      var rest := LatestRetry(order[..|order| - 1], rows);
      var retry := rows[order[|order| - 1]].nextRetryAt;
      if retry.Some? then Max(rest, retry.value) else rest
  }

  lemma {:induction false} AllDueThen(order: seq<string>, rows: map<string, Job>, due: int)
    requires (forall k :: k in order ==> k in rows) && LatestRetry(order, rows) <= due
    ensures forall k :: k in order ==> DueAt(rows[k], due)
  {
    if order != [] {
      var init, last := order[..|order| - 1], order[|order| - 1];
      assert order == init + [last];
      AllDueThen(init, rows, due);
    }
  }

  /** Iris completes, the network takes and the node confirms whatever it is asked about an unfinished row. */
  ghost predicate AnswersWell(cfg: Config, w: World, rows: map<string, Job>) {
    forall k :: k in rows && !Terminal(rows[k].state) ==>
      && Attestations(cfg, rows[k].messageBytes, w.iris(k)).Complete?
      && w.submit(k).Accepted? && Succeeded(w.receipt(rows[k].destinationDomain, w.submit(k).hash))
      && (OnChain(rows[k]) ==> Succeeded(ReceiptOf(w, rows[k])))
  }

  /** Every reachable table has a world that answers well: Iris returns the observed bytes themselves. */
  function HelpfulWorld(rows: map<string, Job>): World {
    World(k => if k in rows then OwnReply(rows[k].messageBytes) else NetworkFailure("unknown"),
          _ => Accepted("0x"), (_, _) => Receipt(1, 0), (_, _) => InMempool)
  }

  lemma HelpfulWorldAnswers(cfg: Config, trace: seq<Event>)
    requires Run(cfg, trace).Some?
    ensures var rows := Run(cfg, trace).value.jobs; AnswersWell(cfg, HelpfulWorld(rows), rows)
  {
    var s := Run(cfg, trace).value;
    RunInv(cfg, trace);
    forall k | k in s.jobs && !Terminal(s.jobs[k].state)
      ensures Attestations(cfg, s.jobs[k].messageBytes, HelpfulWorld(s.jobs).iris(k)).Complete?
    {
      HelpExists(cfg, s, k);
    }
  }

  lemma AnswersHelp(cfg: Config, s: Sys, w: World, order: seq<string>, due: int)
    requires Inv(cfg, s) && TableOk(order, s.jobs) && AnswersWell(cfg, w, s.jobs) && LatestRetry(order, s.jobs) <= due
    ensures AllHelped(cfg, w, due, s.jobs)
  {
    AllDueThen(order, s.jobs, due);
    forall k | k in s.jobs ensures Helped(cfg, w, due, s.jobs[k]) {
      assert RowInv(cfg, k, s.jobs[k]);
    }
  }

  /** A finished job stays as it is; any other is delivered, or given up for its age if it was waiting for Iris. */
  ghost predicate Ended(cfg: Config, was: Job, r: Job) {
    if Terminal(was.state) then r == was
    else SameIdentity(was, r) && (r.state == Delivered || ExpiredWaiting(cfg, was, r))
  }

  lemma DoneIsEnded(cfg: Config, was: map<string, Job>, rows: map<string, Job>)
    requires AllOnTheWay(cfg, was, rows) && AllDone(rows)
    ensures forall k :: k in rows ==> Ended(cfg, was[k], rows[k])
  {
    forall k | k in rows ensures Ended(cfg, was[k], rows[k]) {
      assert OnTheWay(cfg, was[k], rows[k]);
    }
  }

  /** A new process, at the time of the latest retry or after it. */
  method RestartAndWait(actor: Actor) returns (due: int)
    requires actor.Valid()
    modifies actor`now, actor`pending, actor`trace, actor`crashes
    ensures actor.Valid() && actor.pending.Idle? && old(actor.trace) <= actor.trace && due <= actor.now
    ensures due == LatestRetry(actor.repo.order, actor.repo.rows) && Inv(actor.cfg, actor.View())
  {
    actor.Restart();
    due := LatestRetry(actor.repo.order, actor.repo.rows);
    actor.Wait(due);
    RunInv(actor.cfg, actor.trace);
  }

  /**
   * No job is ever wedged. At any moment of any run the process may stop: once the new one has waited for the latest
   * retry, at most four ticks for each row end every job of the table, whatever is listed and polled in which of them.
   */
  method FinishAll(actor: Actor, w: World) returns (ticks: nat)
    requires actor.Valid() && AnswersWell(actor.cfg, w, actor.repo.rows)
    modifies actor`now, actor`pending, actor`trace, actor`crashes, actor.repo`rows
    ensures actor.Valid() && old(actor.trace) <= actor.trace && ticks <= 4 * |actor.repo.order|
    ensures actor.repo.rows.Keys == old(actor.repo.rows.Keys)
    ensures forall k :: k in actor.repo.rows ==> Ended(actor.cfg, old(actor.repo.rows)[k], actor.repo.rows[k])
  {
    ghost var was := actor.repo.rows;
    var due := RestartAndWait(actor);
    AnswersHelp(actor.cfg, actor.View(), w, actor.repo.order, due);
    var machine := new CctpStateMachine(actor);
    ticks := TickUntilDone(machine, w, due);
    DoneIsEnded(actor.cfg, was, actor.repo.rows);
  }
}
