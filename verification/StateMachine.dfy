/**
 * The four ticks as they run: listings, guarded writes and calls whose answers the environment chooses.
 * Each of them is shown to be a run of the protocol, so everything proved about runs holds for them.
 */
module StateMachine {
  import opened Wrappers
  import opened IrisClient
  import opened Jobs
  import opened JobsRepo
  import opened Protocol
  import opened RunLedger

  const TICK_BATCH: nat := 100
  const IRIS_POLL_CONCURRENCY: nat := 8

  /** What the outside answers about a job, and the node of a domain about a transaction: any functions. */
  datatype World = World(
    iris: string -> HttpReply,
    submit: string -> SubmitOutcome,
    receipt: (nat, string) -> ReceiptReply,
    mempool: (nat, string) -> MempoolReply)

  function ReceiptOf(w: World, j: Job): ReceiptReply
    requires OnChain(j)
  {
    w.receipt(j.destinationDomain, j.submittedTxHash.value)
  }

  function MempoolOf(w: World, j: Job): MempoolReply
    requires OnChain(j)
  {
    w.mempool(j.destinationDomain, j.submittedTxHash.value)
  }

  /** The table and the clock, with the history of everything that was written or sent. */
  class Actor {
    const cfg: Config
    const repo: InMemoryJobsRepo
    var now: int
    ghost var pending: Pending
    ghost var trace: seq<Event>
    ghost var crashes: nat // restarts so far; no tick has this field in its frame

    ghost function View(): Sys
      reads this, repo
    {
      Sys(repo.rows, now, pending)
    }

    ghost predicate Valid()
      reads this, repo
    {
      repo.Valid() && Run(cfg, trace) == Some(View()) && crashes == Crashes(trace)
    }

    constructor (cfg: Config)
      ensures Valid() && this.cfg == cfg && trace == [] && fresh(repo)
    {
      this.cfg := cfg;
      repo := new InMemoryJobsRepo();
      now, pending, trace, crashes := 0, Idle, [], 0;
    }

    /** A new process on the table, and at the time, that a run has left: what was only in memory is gone. */
    constructor Resume(cfg: Config, order: seq<string>, rows: map<string, Job>, now: int, ghost left: seq<Event>)
      requires Distinct(order) && WellKeyed(rows) && forall k :: k in rows <==> k in order
      requires Run(cfg, left).Some? && Run(cfg, left).value.jobs == rows && Run(cfg, left).value.now == now
      ensures Valid() && this.cfg == cfg && pending.Idle? && trace == left + [Crash] && fresh(repo)
      ensures repo.order == order && repo.rows == rows && this.now == now
    {
      RunExtend(cfg, left, Crash);
      this.cfg := cfg;
      repo := new InMemoryJobsRepo.Load(order, rows);
      this.now, pending, trace, crashes := now, Idle, left + [Crash], Crashes(left + [Crash]);
    }

    /** Appends an event whose effect on the table has just been carried out. */
    ghost method Record(before: Sys, e: Event)
      requires repo.Valid() && Run(cfg, trace) == Some(before) && crashes == Crashes(trace) && !e.Crash?
      requires Step(cfg, before, e).Some?
      requires Step(cfg, before, e).value.jobs == repo.rows && Step(cfg, before, e).value.now == now
      modifies this`pending, this`trace
      ensures Valid() && trace == old(trace) + [e] && pending == Step(cfg, before, e).value.pending
    {
      RunExtend(cfg, trace, e);
      assert (trace + [e])[..|trace|] == trace;
      pending := Step(cfg, before, e).value.pending;
      trace := trace + [e];
    }

    /** Reads the clock: any time that is not earlier than the last reading. */
    method Now() returns (t: int)
      requires Valid()
      modifies this`now, this`pending, this`trace
      ensures Valid() && t == now && old(now) <= now
      ensures pending == old(pending) && old(trace) <= trace
    {
      ghost var before := View();
      t := *;
      if t < now {
        t := now;
      }
      now := t;
      Record(before, Advance(t));
    }

    /** Time passes until t at least. */
    method Wait(t: int)
      requires Valid()
      modifies this`now, this`pending, this`trace
      ensures Valid() && old(now) <= now && t <= now && pending == old(pending) && old(trace) <= trace
    {
      ghost var before := View();
      if now < t {
        now := t;
      }
      Record(before, Advance(now));
    }

    /** Stops the process at this point: what was only in memory is gone. */
    method Restart()
      requires Valid()
      modifies this`pending, this`trace, this`crashes
      ensures Valid() && pending.Idle? && trace == old(trace) + [Crash]
    {
      RunExtend(cfg, trace, Crash);
      assert (trace + [Crash])[..|trace|] == trace;
      pending, trace, crashes := Idle, trace + [Crash], crashes + 1;
    }
  }

  /** The rows listed from position i on have not been touched since they were listed. */
  ghost predicate Fresh(jobs: seq<Job>, i: int, rows: map<string, Job>) {
    forall n :: 0 <= i <= n < |jobs| ==> jobs[n].dedupKey in rows && rows[jobs[n].dedupKey] == jobs[n]
  }

  /** Rows that were not listed are as they were, and no row appears or goes away. */
  ghost predicate OnlyListed(jobs: seq<Job>, was: map<string, Job>, rows: map<string, Job>) {
    && was.Keys == rows.Keys
    && forall k :: k in was && was[k] !in jobs ==> rows[k] == was[k]
  }

  // ----- what one tick does to one listed row -----

  /** Waiting for Iris, or attested at once with its own bytes in mock mode. */
  ghost predicate StartedRow(cfg: Config, j: Job, r: Job, now: int) {
    match cfg.irisMode
    case MockIris =>
      r == j.(state := Attested, attestation := Some("0x"), relayMessage := Some(j.messageBytes),
              lastIrisStatus := Some("mock"), updatedAt := now)
    case RealIris => r == j.(state := AwaitingAttestation, updatedAt := now)
  }

  ghost predicate ExpiredRow(j: Job, r: Job, now: int) {
    r == j.(state := DeadLetter, deadLetterReason := Some(Expired), updatedAt := now)
  }

  /** A poll counts itself; only accepted bytes move the row on. A rejected fetch leaves no trace. */
  ghost predicate PolledRow(cfg: Config, w: World, j: Job, r: Job) {
    match Attestations(cfg, j.messageBytes, w.iris(j.dedupKey))
    case Complete(attestation, message) =>
      r == j.(state := Attested, attestation := Some(attestation), relayMessage := Some(message),
              lastIrisStatus := Some("complete"), pollAttempts := j.pollAttempts + 1, updatedAt := r.updatedAt)
    case Error(problem) =>
      r == j.(lastIrisStatus := Some("error:" + problem), pollAttempts := j.pollAttempts + 1, updatedAt := r.updatedAt)
    case Pending(None) =>
      r == j.(lastIrisStatus := Some("pending"), pollAttempts := j.pollAttempts + 1, updatedAt := r.updatedAt)
    case Pending(Some(detail)) =>
      r == j.(lastIrisStatus := Some(detail), pollAttempts := j.pollAttempts + 1, updatedAt := r.updatedAt)
    case Thrown => r == j
  }

  lemma PollIsPolled(cfg: Config, w: World, j: Job, r: Job, now: int)
    requires var result := Attestations(cfg, j.messageBytes, w.iris(j.dedupKey));
             !result.Thrown? && r == ApplyPatch(j, AfterPoll(result, j.pollAttempts), now)
    ensures PolledRow(cfg, w, j, r)
  {
  }

  /** The lookup itself rejects: a success reply whose body is JSON null. */
  predicate Rejects(cfg: Config, w: World, j: Job) {
    var reply := w.iris(j.dedupKey);
    cfg.irisMode.RealIris? && reply.Reply? && 200 <= reply.status <= 299 && reply.body.JsonNull?
  }

  lemma RejectionThrows(cfg: Config, w: World, j: Job)
    ensures Attestations(cfg, j.messageBytes, w.iris(j.dedupKey)).Thrown? <==> Rejects(cfg, w, j)
  {
  }

  ghost predicate AllAnswered(cfg: Config, w: World, jobs: seq<Job>, n: int) {
    forall i :: 0 <= i < n <= |jobs| ==> !Rejects(cfg, w, jobs[i])
  }

  lemma OneMoreAnswered(cfg: Config, w: World, jobs: seq<Job>, n: nat)
    requires n < |jobs|
    ensures AllAnswered(cfg, w, jobs, n + 1) == (AllAnswered(cfg, w, jobs, n) && !Rejects(cfg, w, jobs[n]))
  {
  }

  /** Not due: untouched. Due: sent, and the row records what came of it. */
  ghost predicate AttemptedRow(w: World, j: Job, r: Job, tickNow: int) {
    if j.nextRetryAt.Some? && j.nextRetryAt.value > tickNow then r == j
    else if j.attestation.None? || j.relayMessage.None? then r == j.(state := AwaitingAttestation, updatedAt := tickNow)
    else SentRow(j, r, w.submit(j.dedupKey))
  }

  /** Submitted under its hash, found already delivered, or counted as a failure. */
  ghost predicate SentRow(j: Job, r: Job, outcome: SubmitOutcome) {
    match outcome
    case Accepted(hash) =>
      && r.submittedAt.Some?
      && r == j.(state := Submitted, submittedTxHash := Some(hash), submittedAt := r.submittedAt, nextRetryAt := None,
                 updatedAt := r.updatedAt)
    case Threw(message, _) =>
      if TellsOfReplay(message) then r == j.(state := AlreadyDelivered, updatedAt := r.updatedAt) else FailedRow(j, r)
  }

  lemma AcceptedIsSent(j: Job, r: Job, hash: string, at: int, now: int)
    requires r == ApplyPatch(j, ToSubmitted(hash, at), now)
    ensures SentRow(j, r, Accepted(hash))
  {
  }

  /** One more failure and a delay from now on, twice the last one; the sixth ends the job. */
  ghost predicate FailedRow(j: Job, r: Job) {
    if j.retryAttempts < 5 then
      r == j.(retryAttempts := j.retryAttempts + 1,
              nextRetryAt := Some(r.updatedAt + [2000, 4000, 8000, 16000, 32000][j.retryAttempts]), updatedAt := r.updatedAt)
    else r == j.(state := DeadLetter, deadLetterReason := Some(RetriesExhausted), updatedAt := r.updatedAt)
  }

  lemma FailureFails(j: Job, r: Job, now: int)
    requires r == ApplyPatch(j, AfterFailure(j.retryAttempts, now), now)
    ensures FailedRow(j, r) && r.updatedAt == now
  {
    if j.retryAttempts < 5 {
      DelayTable(j.retryAttempts + 1);
    }
  }

  ghost predicate DeliveredRow(j: Job, r: Job, block: nat) {
    && r.deliveredAt.Some?
    && r == j.(state := Delivered, deliveredTxHash := j.submittedTxHash, deliveredBlock := Some(block),
               deliveredAt := r.deliveredAt, updatedAt := r.updatedAt)
  }

  /** Attested again, its transaction forgotten. */
  function Cleared(j: Job, at: int): Job {
    j.(state := Attested, submittedTxHash := None, submittedAt := None, updatedAt := at)
  }

  ghost predicate RevertedRow(j: Job, r: Job) { FailedRow(Cleared(j, r.updatedAt), r) }

  predicate Stuck(cfg: Config, j: Job, now: int)
    requires OnChain(j)
  {
    now - j.submittedAt.value > cfg.stuckTxThresholdMs
  }

  /** Cleared to be sent again, at a time when it was stuck; if it already was at the time from, it has to be. */
  ghost predicate DroppedRow(cfg: Config, j: Job, r: Job, from: int)
    requires OnChain(j)
  {
    if r == j then !Stuck(cfg, j, from)
    else Stuck(cfg, j, r.updatedAt) && r == Cleared(j, r.updatedAt)
  }

  lemma RevertedThenCounted(j: Job, r: Job, t: int)
    requires FailedRow(ApplyPatch(j, TO_RESUBMIT, t), r)
    ensures RevertedRow(j, r)
  {
  }

  /** Delivered, reverted and counted, dropped and to be sent again, or still waiting: as the node answers. */
  ghost predicate CheckedRow(cfg: Config, w: World, j: Job, r: Job, from: int) {
    if !OnChain(j) then r == j
    else match w.receipt(j.destinationDomain, j.submittedTxHash.value)
      case ReceiptFailed => false
      case Receipt(status, block) => if status == 1 then DeliveredRow(j, r, block) else RevertedRow(j, r)
      case NoReceipt => UnminedRow(cfg, w.mempool(j.destinationDomain, j.submittedTxHash.value), j, r, from)
  }

  ghost predicate UnminedRow(cfg: Config, mempool: MempoolReply, j: Job, r: Job, from: int)
    requires OnChain(j)
  {
    match mempool
    case Dropped => DroppedRow(cfg, j, r, from)
    case InMempool => r == j
    case MempoolFailed => r == j && !Stuck(cfg, j, from)
  }

  /** The node cannot be asked about this job: the tick ends here. */
  predicate Unanswered(w: World, j: Job) {
    && OnChain(j)
    && (ReceiptOf(w, j).ReceiptFailed? || (ReceiptOf(w, j).NoReceipt? && MempoolOf(w, j).MempoolFailed?))
  }

  /** What a tick promises about each row it handles. */
  datatype Promise =
    | StartedAt(cfg: Config, now: int)
    | ExpiredAt(now: int)
    | PolledBy(cfg: Config, w: World)
    | AttemptedAt(w: World, now: int)
    | CheckedBy(cfg: Config, w: World, from: int)

  ghost predicate Kept(p: Promise, j: Job, r: Job) {
    match p
    case StartedAt(cfg, now) => StartedRow(cfg, j, r, now)
    case ExpiredAt(now) => ExpiredRow(j, r, now)
    case PolledBy(cfg, w) => PolledRow(cfg, w, j, r)
    case AttemptedAt(w, now) => AttemptedRow(w, j, r, now)
    case CheckedBy(cfg, w, from) => CheckedRow(cfg, w, j, r, from)
  }

  /**
   * A tick that has handled the first i of the listed jobs: the promise p holds between the row as listed and
   * the row now, the others are untouched, and every row outside the listing is as it was.
   */
  ghost predicate Swept(jobs: seq<Job>, i: int, was: map<string, Job>, rows: map<string, Job>, p: Promise) {
    && 0 <= i <= |jobs| && DistinctKeys(jobs) && Fresh(jobs, 0, was)
    && OnlyListed(jobs, was, rows)
    && Fresh(jobs, i, rows)
    && forall n :: 0 <= n < i ==> jobs[n].dedupKey in rows && Kept(p, jobs[n], rows[jobs[n].dedupKey])
  }

  lemma SweepStep(jobs: seq<Job>, i: nat, was: map<string, Job>, before: map<string, Job>, after: map<string, Job>,
                  p: Promise)
    requires i < |jobs| && Swept(jobs, i, was, before, p)
    requires jobs[i].dedupKey in after && after == before[jobs[i].dedupKey := after[jobs[i].dedupKey]]
    requires Kept(p, jobs[i], after[jobs[i].dedupKey])
    ensures Swept(jobs, i + 1, was, after, p)
  {
    forall n | 0 <= n < |jobs| && n != i ensures jobs[n].dedupKey != jobs[i].dedupKey {
      assert n < i || i < n;
    }
    assert was[jobs[i].dedupKey] == jobs[i];
    assert after.Keys == before.Keys;
  }

  predicate IsExpired(cfg: Config, now: int, j: Job) { now - j.detectedAt > cfg.maxAttestationAgeMs }

  /** The listed jobs that are, or are not, past the attestation age. */
  function ByAge(cfg: Config, now: int, jobs: seq<Job>, expired: bool): (r: seq<Job>)
    ensures forall j :: j in r <==> j in jobs && IsExpired(cfg, now, j) == expired
    ensures DistinctKeys(jobs) ==> DistinctKeys(r)
  {
    if jobs == [] then []
    else
      var init, last := jobs[..|jobs| - 1], jobs[|jobs| - 1];
      var rest := ByAge(cfg, now, init, expired);
      assert DistinctKeys(jobs) ==> forall j :: j in init ==> j.dedupKey != last.dedupKey;
      assert forall n :: 0 <= n < |rest| ==> rest[n] in rest;
      if IsExpired(cfg, now, last) == expired then rest + [last] else rest
  }

  function Pollable(cfg: Config, now: int, jobs: seq<Job>): seq<Job> {
    var young := ByAge(cfg, now, jobs, false);
    young[..Min(IRIS_POLL_CONCURRENCY, |young|)]
  }

  /** Concurrent requests finish in any order: some rearrangement of the list. */
  method AnyOrder(jobs: seq<Job>) returns (order: seq<Job>)
    requires DistinctKeys(jobs)
    ensures multiset(order) == multiset(jobs) && DistinctKeys(order)
  {
    order := *;
    if multiset(order) != multiset(jobs) || !DistinctKeys(order) {
      order := jobs;
    }
  }

  /** Waiting jobs, all of them past the attestation age or none. */
  ghost predicate AllWaiting(cfg: Config, now: int, jobs: seq<Job>, expired: bool) {
    forall i :: 0 <= i < |jobs| ==> jobs[i].state == AwaitingAttestation && IsExpired(cfg, now, jobs[i]) == expired
  }

  /** Some of the listed jobs, none of them among those that are gone. */
  ghost predicate PartOf(some: seq<Job>, jobs: seq<Job>, gone: seq<Job>) {
    forall i :: 0 <= i < |some| ==> some[i] in jobs && some[i] !in gone
  }

  /** The listing falls into the expired jobs and the others. */
  lemma SplitByAge(cfg: Config, now: int, jobs: seq<Job>, rows: map<string, Job>)
    requires DistinctKeys(jobs) && Fresh(jobs, 0, rows)
    requires forall j :: j in jobs ==> j.state == AwaitingAttestation
    ensures var gone, young := ByAge(cfg, now, jobs, true), Pollable(cfg, now, jobs);
            && DistinctKeys(gone) && Fresh(gone, 0, rows) && AllWaiting(cfg, now, gone, true)
            && DistinctKeys(young) && PartOf(young, jobs, gone) && AllWaiting(cfg, now, young, false)
  {
    var gone, young := ByAge(cfg, now, jobs, true), Pollable(cfg, now, jobs);
    forall n | 0 <= n < |gone|
      ensures gone[n].state == AwaitingAttestation && IsExpired(cfg, now, gone[n])
      ensures gone[n].dedupKey in rows && rows[gone[n].dedupKey] == gone[n]
    {
      assert gone[n] in gone;
    }
    forall n | 0 <= n < |young|
      ensures young[n] in jobs && young[n] !in gone && young[n].state == AwaitingAttestation && !IsExpired(cfg, now, young[n])
    {
      assert young[n] in ByAge(cfg, now, jobs, false);
    }
  }

  /** Handling some listed jobs leaves the listed jobs that are not among them as they were. */
  lemma UntouchedRows(cfg: Config, now: int, jobs: seq<Job>, gone: seq<Job>, young: seq<Job>, order: seq<Job>,
                      was: map<string, Job>, mid: map<string, Job>)
    requires Fresh(jobs, 0, was) && OnlyListed(gone, was, mid)
    requires PartOf(young, jobs, gone) && AllWaiting(cfg, now, young, false)
    requires multiset(order) == multiset(young)
    ensures Fresh(order, 0, mid) && AllWaiting(cfg, now, order, false)
  {
    forall n | 0 <= n < |order|
      ensures order[n].dedupKey in mid && mid[order[n].dedupKey] == order[n]
      ensures order[n].state == AwaitingAttestation && !IsExpired(cfg, now, order[n])
    {
      assert order[n] in multiset(young);
      var k :| 0 <= k < |young| && young[k] == order[n];
      var m :| 0 <= m < |jobs| && jobs[m] == young[k];
      assert was[jobs[m].dedupKey] == jobs[m];
    }
  }

  /** What a tick over the waiting rows does: expires the old ones it listed, then polls the first eight others. */
  ghost predicate WaitingSweep(cfg: Config, w: World, order: seq<string>, now: int, expired: seq<Job>, polled: seq<Job>,
                               was: map<string, Job>, mid: map<string, Job>, rows: map<string, Job>)
  {
    var waiting := Listed(order, was, AwaitingAttestation, TICK_BATCH);
    && expired == ByAge(cfg, now, waiting, true)
    && Swept(expired, |expired|, was, mid, ExpiredAt(now))
    && multiset(polled) == multiset(Pollable(cfg, now, waiting))
    && Swept(polled, |polled|, mid, rows, PolledBy(cfg, w))
  }

  /** What the four ticks listed, when, and the table each left behind. */
  datatype TickLog = TickLog(
    started: seq<Job>, startedAt: int, afterStart: map<string, Job>,
    expired: seq<Job>, polled: seq<Job>, polledAt: int, afterExpiry: map<string, Job>, afterPolls: map<string, Job>,
    sent: seq<Job>, sentAt: int, afterSends: map<string, Job>,
    checked: seq<Job>, checkedFrom: int, handled: int)

  const NO_LOG := TickLog([], 0, map[], [], [], 0, map[], map[], [], 0, map[], [], 0, 0)

  /** The first two ticks: the detected rows, then the expired and the polled ones. */
  ghost predicate WaitingPart(log: TickLog, cfg: Config, w: World, order: seq<string>, was: map<string, Job>) {
    && log.started == Listed(order, was, Detected, 100)
    && Swept(log.started, |log.started|, was, log.afterStart, StartedAt(cfg, log.startedAt))
    && WaitingSweep(cfg, w, order, log.polledAt, log.expired, log.polled, log.afterStart, log.afterExpiry, log.afterPolls)
  }

  /** The last two ticks, run unless a poll was rejected: the attested rows, then the submitted ones. */
  ghost predicate SendingPart(log: TickLog, cfg: Config, w: World, order: seq<string>, rows: map<string, Job>, ok: bool) {
    if !AllAnswered(cfg, w, log.polled, |log.polled|) then !ok && rows == log.afterPolls
    else
      && log.sent == Listed(order, log.afterPolls, Attested, 100)
      && Swept(log.sent, |log.sent|, log.afterPolls, log.afterSends, AttemptedAt(w, log.sentAt))
      && log.checked == Listed(order, log.afterSends, Submitted, 100)
      && Swept(log.checked, log.handled, log.afterSends, rows, CheckedBy(cfg, w, log.checkedFrom))
      && if ok then log.handled == |log.checked| else log.handled < |log.checked| && Unanswered(w, log.checked[log.handled])
  }

  // ----- the writes of the submitted tick are possible -----

  lemma DeliveryWrite(cfg: Config, j: Job, block: nat, at: int, now: int)
    requires j.state == Submitted && OnChain(j) && at <= now
    ensures NextRow(cfg, j, MarkDelivered(j.dedupKey, j.submittedTxHash.value, Receipt(1, block), at), Idle, now)
         == Some(ApplyPatch(j, ToDelivered(j.submittedTxHash.value, block, at), now))
    ensures DeliveredRow(j, ApplyPatch(j, ToDelivered(j.submittedTxHash.value, block, at), now), block)
  {
  }

  lemma RevertWrite(cfg: Config, j: Job, receipt: ReceiptReply, now: int)
    requires j.state == Submitted && OnChain(j) && receipt.Receipt? && receipt.status != 1
    ensures NextRow(cfg, j, RevertClear(j.dedupKey, j.submittedTxHash.value, receipt), Idle, now) == Some(ApplyPatch(j, TO_RESUBMIT, now))
    ensures ApplyPatch(j, TO_RESUBMIT, now).state == Attested
  {
  }

  lemma FailureWrite(cfg: Config, j: Job, now: int)
    requires j.state == Attested
    ensures NextRow(cfg, j, CountFailure(j.dedupKey), FailureSeen(j.dedupKey), now)
         == Some(ApplyPatch(j, AfterFailure(j.retryAttempts, now), now))
  {
  }

  class CctpStateMachine {
    const actor: Actor

    constructor (actor: Actor)
      ensures this.actor == actor
    {
      this.actor := actor;
    }

    /** One guarded write of a tick, recorded as event e; the guard cannot miss. */
    method Write(key: string, from: JobState, patch: JobPatch, at: int, ghost e: Event)
      requires actor.Valid() && IsWrite(e) && e.key == key && key in actor.repo.rows
      requires actor.repo.rows[key].state == from
      requires NextRow(actor.cfg, actor.repo.rows[key], e, actor.pending, actor.now)
            == Some(ApplyPatch(actor.repo.rows[key], patch, at))
      modifies actor`pending, actor`trace, actor.repo`rows
      ensures actor.Valid() && actor.trace == old(actor.trace) + [e]
      ensures actor.pending == PendingAfter(e, old(actor.pending))
      ensures actor.repo.rows == old(actor.repo.rows)[key := ApplyPatch(old(actor.repo.rows)[key], patch, at)]
    {
      ghost var before := actor.View();
      var ok := actor.repo.Transition(key, from, patch, at);
      assert ok;
      actor.Record(before, e);
    }

    method DetectedOne(job: Job, now: int)
      requires actor.Valid() && actor.pending.Idle? && now <= actor.now
      requires job.dedupKey in actor.repo.rows && actor.repo.rows[job.dedupKey] == job && job.state == Detected
      modifies actor`pending, actor`trace, actor.repo`rows
      ensures actor.Valid() && actor.pending.Idle? && old(actor.trace) <= actor.trace
      ensures job.dedupKey in actor.repo.rows
      ensures actor.repo.rows == old(actor.repo.rows)[job.dedupKey := actor.repo.rows[job.dedupKey]]
      ensures Kept(StartedAt(actor.cfg, now), job, actor.repo.rows[job.dedupKey])
    {
      if actor.cfg.irisMode.MockIris? {
        Write(job.dedupKey, Detected, ToMockAttested(job.messageBytes), now, MockAttest(job.dedupKey, now));
      } else {
        Write(job.dedupKey, Detected, TO_AWAITING, now, StartAwaiting(job.dedupKey, now));
      }
    }

    method StartAll(jobs: seq<Job>, now: int)
      requires actor.Valid() && actor.pending.Idle? && now <= actor.now
      requires DistinctKeys(jobs) && Fresh(jobs, 0, actor.repo.rows) && forall j :: j in jobs ==> j.state == Detected
      modifies actor`pending, actor`trace, actor.repo`rows
      ensures actor.Valid() && actor.pending.Idle? && old(actor.trace) <= actor.trace
      ensures Swept(jobs, |jobs|, old(actor.repo.rows), actor.repo.rows, StartedAt(actor.cfg, now))
    {
      for i := 0 to |jobs|
        invariant actor.Valid() && actor.pending.Idle? && old(actor.trace) <= actor.trace
        invariant Swept(jobs, i, old(actor.repo.rows), actor.repo.rows, StartedAt(actor.cfg, now))
      {
        ghost var before := actor.repo.rows;
        DetectedOne(jobs[i], now);
        SweepStep(jobs, i, old(actor.repo.rows), before, actor.repo.rows, StartedAt(actor.cfg, now));
      }
    }

    /** Every listed job leaves the detected state: for the Iris queue, or attested in mock mode. */
    method TickDetected() returns (ghost jobs: seq<Job>, ghost now: int)
      requires actor.Valid() && actor.pending.Idle?
      modifies actor`now, actor`pending, actor`trace, actor.repo`rows
      ensures actor.Valid() && actor.pending.Idle? && old(actor.trace) <= actor.trace
      ensures old(actor.now) <= now <= actor.now
      ensures jobs == old(Listed(actor.repo.order, actor.repo.rows, Detected, 100))
      ensures Swept(jobs, |jobs|, old(actor.repo.rows), actor.repo.rows, StartedAt(actor.cfg, now))
    {
      var listed := actor.repo.ListByState(Detected, TICK_BATCH);
      var start := actor.Now();
      jobs, now := listed, start;
      StartAll(listed, start);
    }

    // ----- awaiting attestation -----

    method ExpireOne(job: Job, now: int)
      requires actor.Valid() && actor.pending.Idle? && now <= actor.now && IsExpired(actor.cfg, now, job)
      requires job.dedupKey in actor.repo.rows && actor.repo.rows[job.dedupKey] == job
      requires job.state == AwaitingAttestation
      modifies actor`pending, actor`trace, actor.repo`rows
      ensures actor.Valid() && actor.pending.Idle? && old(actor.trace) <= actor.trace
      ensures job.dedupKey in actor.repo.rows
      ensures actor.repo.rows == old(actor.repo.rows)[job.dedupKey := actor.repo.rows[job.dedupKey]]
      ensures Kept(ExpiredAt(now), job, actor.repo.rows[job.dedupKey])
    {
      Write(job.dedupKey, AwaitingAttestation, TO_EXPIRED, now, Expire(job.dedupKey, now));
    }

    /** One Iris lookup and its write; false when the lookup itself rejects. */
    method PollOne(job: Job, tickNow: int, w: World) returns (ok: bool)
      requires actor.Valid() && actor.pending.Idle? && tickNow <= actor.now && !IsExpired(actor.cfg, tickNow, job)
      requires job.dedupKey in actor.repo.rows && actor.repo.rows[job.dedupKey] == job
      requires job.state == AwaitingAttestation
      modifies actor`now, actor`pending, actor`trace, actor.repo`rows
      ensures actor.Valid() && actor.pending.Idle? && old(actor.trace) <= actor.trace && old(actor.now) <= actor.now
      ensures job.dedupKey in actor.repo.rows
      ensures actor.repo.rows == old(actor.repo.rows)[job.dedupKey := actor.repo.rows[job.dedupKey]]
      ensures Kept(PolledBy(actor.cfg, w), job, actor.repo.rows[job.dedupKey])
      ensures ok == !Rejects(actor.cfg, w, job)
    {
      RejectionThrows(actor.cfg, w, job);
      var reply := w.iris(job.dedupKey);
      var result := Attestations(actor.cfg, job.messageBytes, reply);
      if result.Thrown? {
        return false;
      }
      var now := actor.Now();
      Write(job.dedupKey, AwaitingAttestation, AfterPoll(result, job.pollAttempts), now,
            Poll(job.dedupKey, tickNow, reply, job.pollAttempts));
      PollIsPolled(actor.cfg, w, job, actor.repo.rows[job.dedupKey], now);
      return true;
    }

    method ExpireAll(expired: seq<Job>, now: int)
      requires actor.Valid() && actor.pending.Idle? && now <= actor.now
      requires DistinctKeys(expired) && Fresh(expired, 0, actor.repo.rows)
      requires AllWaiting(actor.cfg, now, expired, true)
      modifies actor`now, actor`pending, actor`trace, actor.repo`rows
      ensures actor.Valid() && actor.pending.Idle? && old(actor.trace) <= actor.trace && now <= actor.now
      ensures Swept(expired, |expired|, old(actor.repo.rows), actor.repo.rows, ExpiredAt(now))
    {
      for i := 0 to |expired|
        invariant actor.Valid() && actor.pending.Idle? && old(actor.trace) <= actor.trace && now <= actor.now
        invariant Swept(expired, i, old(actor.repo.rows), actor.repo.rows, ExpiredAt(now))
      {
        ghost var before := actor.repo.rows;
        ExpireOne(expired[i], now);
        SweepStep(expired, i, old(actor.repo.rows), before, actor.repo.rows, ExpiredAt(now));
      }
    }

    /** All lookups run to their end, whichever of them reject. */
    method PollAll(order: seq<Job>, tickNow: int, w: World) returns (ok: bool)
      requires actor.Valid() && actor.pending.Idle? && tickNow <= actor.now
      requires DistinctKeys(order) && Fresh(order, 0, actor.repo.rows)
      requires AllWaiting(actor.cfg, tickNow, order, false)
      modifies actor`now, actor`pending, actor`trace, actor.repo`rows
      ensures actor.Valid() && actor.pending.Idle? && old(actor.trace) <= actor.trace && tickNow <= actor.now
      ensures Swept(order, |order|, old(actor.repo.rows), actor.repo.rows, PolledBy(actor.cfg, w))
      ensures ok == AllAnswered(actor.cfg, w, order, |order|)
    {
      ok := true;
      for i := 0 to |order|
        invariant actor.Valid() && actor.pending.Idle? && old(actor.trace) <= actor.trace && tickNow <= actor.now
        invariant Swept(order, i, old(actor.repo.rows), actor.repo.rows, PolledBy(actor.cfg, w))
        invariant ok == AllAnswered(actor.cfg, w, order, i)
      {
        ghost var before := actor.repo.rows;
        var polled := PollOne(order[i], tickNow, w);
        OneMoreAnswered(actor.cfg, w, order, i);
        ok := ok && polled;
        SweepStep(order, i, old(actor.repo.rows), before, actor.repo.rows, PolledBy(actor.cfg, w));
      }
    }

    /** The young jobs are polled, whatever became of the expired ones. */
    method PollYoung(jobs: seq<Job>, gone: seq<Job>, young: seq<Job>, tickNow: int, w: World,
                     ghost was: map<string, Job>)
      returns (ok: bool, ghost polled: seq<Job>)
      requires actor.Valid() && actor.pending.Idle? && tickNow <= actor.now
      requires DistinctKeys(young) && Fresh(jobs, 0, was) && OnlyListed(gone, was, actor.repo.rows)
      requires PartOf(young, jobs, gone) && AllWaiting(actor.cfg, tickNow, young, false)
      modifies actor`now, actor`pending, actor`trace, actor.repo`rows
      ensures actor.Valid() && actor.pending.Idle? && old(actor.trace) <= actor.trace && tickNow <= actor.now
      ensures multiset(polled) == multiset(young)
      ensures Swept(polled, |polled|, old(actor.repo.rows), actor.repo.rows, PolledBy(actor.cfg, w))
      ensures ok == AllAnswered(actor.cfg, w, polled, |polled|)
    {
      var order := AnyOrder(young);
      UntouchedRows(actor.cfg, tickNow, jobs, gone, young, order, was, actor.repo.rows);
      polled := order;
      ok := PollAll(order, tickNow, w);
    }

    /** The expired ones of the waiting jobs are dead-lettered. */
    method ExpireOld() returns (jobs: seq<Job>, expired: seq<Job>, now: int)
      requires actor.Valid() && actor.pending.Idle?
      modifies actor`now, actor`pending, actor`trace, actor.repo`rows
      ensures actor.Valid() && actor.pending.Idle? && old(actor.trace) <= actor.trace && old(actor.now) <= now <= actor.now
      ensures jobs == old(Listed(actor.repo.order, actor.repo.rows, AwaitingAttestation, 100))
      ensures DistinctKeys(jobs) && Fresh(jobs, 0, old(actor.repo.rows)) && (forall j :: j in jobs ==> j.state == AwaitingAttestation)
      ensures expired == ByAge(actor.cfg, now, jobs, true)
      ensures Swept(expired, |expired|, old(actor.repo.rows), actor.repo.rows, ExpiredAt(now))
    {
      jobs := actor.repo.ListByState(AwaitingAttestation, TICK_BATCH);
      now := actor.Now();
      expired := ByAge(actor.cfg, now, jobs, true);
      SplitByAge(actor.cfg, now, jobs, actor.repo.rows);
      ExpireAll(expired, now);
    }

    /** Expired jobs are dead-lettered; then up to 8 of the others are polled, finishing in any order. */
    method TickAwaitingAttestation(w: World)
      returns (ok: bool, ghost expired: seq<Job>, ghost polled: seq<Job>, ghost mid: map<string, Job>, ghost now: int)
      requires actor.Valid() && actor.pending.Idle?
      modifies actor`now, actor`pending, actor`trace, actor.repo`rows
      ensures actor.Valid() && actor.pending.Idle? && old(actor.trace) <= actor.trace
      ensures WaitingSweep(actor.cfg, w, actor.repo.order, now, expired, polled, old(actor.repo.rows), mid, actor.repo.rows)
      ensures old(actor.now) <= now <= actor.now
      ensures ok == AllAnswered(actor.cfg, w, polled, |polled|)
    {
      var jobs, gone, start := ExpireOld();
      now, expired, mid := start, gone, actor.repo.rows;
      SplitByAge(actor.cfg, start, jobs, old(actor.repo.rows));
      ok, polled := PollYoung(jobs, gone, Pollable(actor.cfg, start, jobs), start, w, old(actor.repo.rows));
    }

    // ----- attested -----

    /** One more attempt and its delay, or the dead letters when the budget is used up. */
    static method FailurePatch(retryAttempts: nat, now: int) returns (patch: JobPatch)
      ensures patch == AfterFailure(retryAttempts, now)
    {
      var attempts := retryAttempts + 1;
      patch := TO_EXHAUSTED;
      if attempts <= MAX_RELAY_RETRIES {
        patch := NO_CHANGE.(retryAttempts := Put(attempts), nextRetryAt := Put(Some(now + Delay(attempts))));
      }
    }

    /** Counts the failure and backs off, or gives up past the budget. */
    method RecordSubmissionFailure(job: Job)
      requires actor.Valid() && actor.pending == FailureSeen(job.dedupKey)
      requires job.dedupKey in actor.repo.rows && actor.repo.rows[job.dedupKey] == job && job.state == Attested
      modifies actor`now, actor`pending, actor`trace, actor.repo`rows
      ensures actor.Valid() && actor.pending.Idle? && old(actor.trace) <= actor.trace && old(actor.now) <= actor.now
      ensures job.dedupKey in actor.repo.rows
      ensures actor.repo.rows == old(actor.repo.rows)[job.dedupKey := actor.repo.rows[job.dedupKey]]
      ensures FailedRow(job, actor.repo.rows[job.dedupKey]) && actor.repo.rows[job.dedupKey].updatedAt == actor.now
    {
      var now := actor.Now();
      var patch := FailurePatch(job.retryAttempts, now);
      FailureWrite(actor.cfg, job, now);
      Write(job.dedupKey, Attested, patch, now, CountFailure(job.dedupKey));
      FailureFails(job, actor.repo.rows[job.dedupKey], now);
    }

    /** The broadcast: the environment decides what the network took and what the caller was told. */
    method SubmitRelayWithHook(job: Job, tickNow: int, outcome: SubmitOutcome)
      requires actor.Valid() && actor.pending.Idle? && tickNow <= actor.now
      requires job.dedupKey in actor.repo.rows && actor.repo.rows[job.dedupKey] == job && job.state == Attested
      requires DueAt(job, tickNow) && BytesReady(job)
      modifies actor`pending, actor`trace
      ensures actor.Valid() && actor.pending == AfterSubmit(job.dedupKey, outcome, actor.now)
      ensures old(actor.trace) <= actor.trace
    {
      actor.Record(actor.View(), Broadcast(job.dedupKey, tickNow, job.destinationDomain, job.relayMessage.value,
                                           job.attestation.value, outcome));
    }

    /** The caller was told the transaction's hash: keep it. */
    method RecordAccepted(job: Job, outcome: SubmitOutcome)
      requires actor.Valid() && outcome.Accepted? && actor.pending == AcceptedTx(job.dedupKey, outcome.hash, actor.now)
      requires job.dedupKey in actor.repo.rows && actor.repo.rows[job.dedupKey] == job && job.state == Attested
      modifies actor`now, actor`pending, actor`trace, actor.repo`rows
      ensures actor.Valid() && actor.pending.Idle? && old(actor.trace) <= actor.trace && old(actor.now) <= actor.now
      ensures job.dedupKey in actor.repo.rows
      ensures actor.repo.rows == old(actor.repo.rows)[job.dedupKey := actor.repo.rows[job.dedupKey]]
      ensures SentRow(job, actor.repo.rows[job.dedupKey], outcome)
    {
      var submittedAt := actor.Now();
      var now := actor.Now();
      Write(job.dedupKey, Attested, ToSubmitted(outcome.hash, submittedAt), now, MarkSubmitted(job.dedupKey, submittedAt));
      AcceptedIsSent(job, actor.repo.rows[job.dedupKey], outcome.hash, submittedAt, now);
    }

    /** The destination had already processed the message: final, and not a failure. */
    method RecordReplayed(job: Job)
      requires actor.Valid() && actor.pending == ReplaySeen(job.dedupKey)
      requires job.dedupKey in actor.repo.rows && actor.repo.rows[job.dedupKey] == job && job.state == Attested
      modifies actor`now, actor`pending, actor`trace, actor.repo`rows
      ensures actor.Valid() && actor.pending.Idle? && old(actor.trace) <= actor.trace && old(actor.now) <= actor.now
      ensures actor.repo.rows == old(actor.repo.rows)[job.dedupKey := job.(state := AlreadyDelivered, updatedAt := actor.now)]
    {
      var now := actor.Now();
      Write(job.dedupKey, Attested, TO_REPLAYED, now, MarkReplayed(job.dedupKey));
    }

    /** Sends one due row and records what came of it. */
    method SendOne(job: Job, tickNow: int, outcome: SubmitOutcome)
      requires actor.Valid() && actor.pending.Idle? && tickNow <= actor.now
      requires job.dedupKey in actor.repo.rows && actor.repo.rows[job.dedupKey] == job && job.state == Attested
      requires DueAt(job, tickNow) && BytesReady(job)
      modifies actor`now, actor`pending, actor`trace, actor.repo`rows
      ensures actor.Valid() && actor.pending.Idle? && old(actor.trace) <= actor.trace && old(actor.now) <= actor.now
      ensures job.dedupKey in actor.repo.rows
      ensures actor.repo.rows == old(actor.repo.rows)[job.dedupKey := actor.repo.rows[job.dedupKey]]
      ensures SentRow(job, actor.repo.rows[job.dedupKey], outcome)
    {
      SubmitRelayWithHook(job, tickNow, outcome);
      if outcome.Threw? {
        ReplayExactly(outcome.message);
      }
      if outcome.Accepted? {
        RecordAccepted(job, outcome);
      } else if AlreadyProcessed(outcome.message) {
        RecordReplayed(job);
      } else {
        RecordSubmissionFailure(job);
      }
    }

    method AttestedOne(job: Job, tickNow: int, w: World)
      requires actor.Valid() && actor.pending.Idle? && tickNow <= actor.now
      requires job.dedupKey in actor.repo.rows && actor.repo.rows[job.dedupKey] == job && job.state == Attested
      modifies actor`now, actor`pending, actor`trace, actor.repo`rows
      ensures actor.Valid() && actor.pending.Idle? && old(actor.trace) <= actor.trace && old(actor.now) <= actor.now
      ensures job.dedupKey in actor.repo.rows
      ensures actor.repo.rows == old(actor.repo.rows)[job.dedupKey := actor.repo.rows[job.dedupKey]]
      ensures Kept(AttemptedAt(w, tickNow), job, actor.repo.rows[job.dedupKey])
    {
      if job.nextRetryAt.Some? && job.nextRetryAt.value > tickNow {
        return;
      }
      if job.attestation.None? || job.relayMessage.None? {
        Write(job.dedupKey, Attested, TO_AWAITING, tickNow, Repoll(job.dedupKey, tickNow));
        return;
      }
      SendOne(job, tickNow, w.submit(job.dedupKey));
    }

    method TickAttested(w: World) returns (ghost jobs: seq<Job>, ghost now: int)
      requires actor.Valid() && actor.pending.Idle?
      modifies actor`now, actor`pending, actor`trace, actor.repo`rows
      ensures actor.Valid() && actor.pending.Idle? && old(actor.trace) <= actor.trace
      ensures old(actor.now) <= now <= actor.now
      ensures jobs == old(Listed(actor.repo.order, actor.repo.rows, Attested, 100))
      ensures Swept(jobs, |jobs|, old(actor.repo.rows), actor.repo.rows, AttemptedAt(w, now))
    {
      var listed := actor.repo.ListByState(Attested, TICK_BATCH);
      var start := actor.Now();
      jobs, now := listed, start;
      for i := 0 to |listed|
        invariant actor.Valid() && actor.pending.Idle? && old(actor.trace) <= actor.trace && start <= actor.now
        invariant Swept(listed, i, old(actor.repo.rows), actor.repo.rows, AttemptedAt(w, start))
      {
        ghost var before := actor.repo.rows;
        AttestedOne(listed[i], start, w);
        SweepStep(listed, i, old(actor.repo.rows), before, actor.repo.rows, AttemptedAt(w, start));
      }
    }

    // ----- submitted -----

    /** Re-reads the cleared row and counts the failure on what it finds. */
    method CountFresh(key: string)
      requires actor.Valid() && actor.pending == FailureSeen(key)
      requires key in actor.repo.rows && actor.repo.rows[key].state == Attested
      modifies actor`now, actor`pending, actor`trace, actor.repo`rows
      ensures actor.Valid() && actor.pending.Idle? && old(actor.trace) <= actor.trace && old(actor.now) <= actor.now
      ensures key in actor.repo.rows && actor.repo.rows == old(actor.repo.rows)[key := actor.repo.rows[key]]
      ensures FailedRow(old(actor.repo.rows[key]), actor.repo.rows[key])
    {
      var cleared := actor.repo.Get(key);
      if cleared.Some? && cleared.value.state == Attested {
        RecordSubmissionFailure(cleared.value);
      }
    }

    /** Seen reverted: forget the hash, so that the row is attested again. */
    method ClearReverted(job: Job, ghost receipt: ReceiptReply) returns (ghost at: int)
      requires actor.Valid() && actor.pending.Idle? && OnChain(job) && receipt.Receipt? && receipt.status != 1
      requires job.dedupKey in actor.repo.rows && actor.repo.rows[job.dedupKey] == job && job.state == Submitted
      modifies actor`now, actor`pending, actor`trace, actor.repo`rows
      ensures actor.Valid() && actor.pending == FailureSeen(job.dedupKey)
      ensures old(actor.trace) <= actor.trace && old(actor.now) <= actor.now
      ensures actor.repo.rows == old(actor.repo.rows)[job.dedupKey := ApplyPatch(job, TO_RESUBMIT, at)]
    {
      var now := actor.Now();
      RevertWrite(actor.cfg, job, receipt, now);
      Write(job.dedupKey, Submitted, TO_RESUBMIT, now, RevertClear(job.dedupKey, job.submittedTxHash.value, receipt));
      at := now;
    }

    /** Seen reverted: clear the hash, then count the failure on the fresh row. */
    method Reverted(job: Job, ghost receipt: ReceiptReply)
      requires actor.Valid() && actor.pending.Idle? && OnChain(job) && receipt.Receipt? && receipt.status != 1
      requires job.dedupKey in actor.repo.rows && actor.repo.rows[job.dedupKey] == job && job.state == Submitted
      modifies actor`now, actor`pending, actor`trace, actor.repo`rows
      ensures actor.Valid() && actor.pending.Idle? && old(actor.trace) <= actor.trace && old(actor.now) <= actor.now
      ensures job.dedupKey in actor.repo.rows
      ensures actor.repo.rows == old(actor.repo.rows)[job.dedupKey := actor.repo.rows[job.dedupKey]]
      ensures RevertedRow(job, actor.repo.rows[job.dedupKey])
    {
      ghost var at := ClearReverted(job, receipt);
      CountFresh(job.dedupKey);
      RevertedThenCounted(job, actor.repo.rows[job.dedupKey], at);
    }

    method Delivered(job: Job, block: nat)
      requires actor.Valid() && actor.pending.Idle? && OnChain(job)
      requires job.dedupKey in actor.repo.rows && actor.repo.rows[job.dedupKey] == job && job.state == Submitted
      modifies actor`now, actor`pending, actor`trace, actor.repo`rows
      ensures actor.Valid() && actor.pending.Idle? && old(actor.trace) <= actor.trace && old(actor.now) <= actor.now
      ensures job.dedupKey in actor.repo.rows
      ensures actor.repo.rows == old(actor.repo.rows)[job.dedupKey := actor.repo.rows[job.dedupKey]]
      ensures DeliveredRow(job, actor.repo.rows[job.dedupKey], block)
    {
      var deliveredAt := actor.Now();
      var now := actor.Now();
      DeliveryWrite(actor.cfg, job, block, deliveredAt, now);
      Write(job.dedupKey, Submitted, ToDelivered(job.submittedTxHash.value, block, deliveredAt), now,
            MarkDelivered(job.dedupKey, job.submittedTxHash.value, Receipt(1, block), deliveredAt));
    }

    /** No receipt yet: past the threshold, a transaction gone from the mempool is to be sent again. */
    method CheckStuck(job: Job, now: int, mempool: MempoolReply, ghost from: int) returns (ok: bool)
      requires actor.Valid() && actor.pending.Idle? && OnChain(job) && from <= now <= actor.now
      requires job.dedupKey in actor.repo.rows && actor.repo.rows[job.dedupKey] == job && job.state == Submitted
      modifies actor`now, actor`pending, actor`trace, actor.repo`rows
      ensures actor.Valid() && actor.pending.Idle? && old(actor.trace) <= actor.trace && old(actor.now) <= actor.now
      ensures job.dedupKey in actor.repo.rows
      ensures actor.repo.rows == old(actor.repo.rows)[job.dedupKey := actor.repo.rows[job.dedupKey]]
      ensures ok ==> UnminedRow(actor.cfg, mempool, job, actor.repo.rows[job.dedupKey], from)
      ensures !ok ==> mempool.MempoolFailed? && actor.repo.rows == old(actor.repo.rows)
    {
      if now - job.submittedAt.value > actor.cfg.stuckTxThresholdMs {
        if mempool.MempoolFailed? {
          return false;
        }
        if mempool.Dropped? {
          Write(job.dedupKey, Submitted, TO_RESUBMIT, now,
                DropClear(job.dedupKey, now, job.submittedTxHash.value, NoReceipt, mempool));
        }
      }
      return true;
    }

    /** One receipt check; false when the node could not be asked. */
    method SubmittedOne(job: Job, w: World, ghost from: int) returns (ok: bool)
      requires actor.Valid() && actor.pending.Idle? && from <= actor.now
      requires job.dedupKey in actor.repo.rows && actor.repo.rows[job.dedupKey] == job && job.state == Submitted
      modifies actor`now, actor`pending, actor`trace, actor.repo`rows
      ensures actor.Valid() && actor.pending.Idle? && old(actor.trace) <= actor.trace && old(actor.now) <= actor.now
      ensures job.dedupKey in actor.repo.rows
      ensures actor.repo.rows == old(actor.repo.rows)[job.dedupKey := actor.repo.rows[job.dedupKey]]
      ensures ok ==> Kept(CheckedBy(actor.cfg, w, from), job, actor.repo.rows[job.dedupKey])
      ensures !ok ==> Unanswered(w, job) && actor.repo.rows == old(actor.repo.rows)
    {
      var now := actor.Now();
      if job.submittedAt.None? || job.submittedTxHash.None? {
        return true;
      }
      var receipt := ReceiptOf(w, job);
      match receipt
      case ReceiptFailed => return false;
      case Receipt(status, block) =>
        if status == 1 {
          Delivered(job, block);
        } else {
          Reverted(job, receipt);
        }
        return true;
      case NoReceipt =>
        ok := CheckStuck(job, now, MempoolOf(w, job), from);
    }

    /** A failing node ends the tick after the jobs handled so far. */
    method TickSubmitted(w: World) returns (ok: bool, ghost jobs: seq<Job>, ghost handled: int)
      requires actor.Valid() && actor.pending.Idle?
      modifies actor`now, actor`pending, actor`trace, actor.repo`rows
      ensures actor.Valid() && actor.pending.Idle? && old(actor.trace) <= actor.trace && old(actor.now) <= actor.now
      ensures jobs == old(Listed(actor.repo.order, actor.repo.rows, Submitted, 100))
      ensures Swept(jobs, handled, old(actor.repo.rows), actor.repo.rows, CheckedBy(actor.cfg, w, old(actor.now)))
      ensures if ok then handled == |jobs| else handled < |jobs| && Unanswered(w, jobs[handled])
    {
      var listed := actor.repo.ListByState(Submitted, TICK_BATCH);
      jobs := listed;
      for i := 0 to |listed|
        invariant actor.Valid() && actor.pending.Idle? && old(actor.trace) <= actor.trace && old(actor.now) <= actor.now
        invariant Swept(listed, i, old(actor.repo.rows), actor.repo.rows, CheckedBy(actor.cfg, w, old(actor.now)))
      {
        ghost var before := actor.repo.rows;
        var asked := SubmittedOne(listed[i], w, old(actor.now));
        if !asked {
          return false, jobs, i;
        }
        SweepStep(listed, i, old(actor.repo.rows), before, actor.repo.rows, CheckedBy(actor.cfg, w, old(actor.now)));
      }
      return true, jobs, |listed|;
    }

    /**
     * All four ticks in order, each on the table the one before left; a rejected poll ends the tick after the
     * polls, a failing node in the last of the four.
     */
    method Tick(w: World) returns (ok: bool, ghost log: TickLog)
      requires actor.Valid() && actor.pending.Idle?
      modifies actor`now, actor`pending, actor`trace, actor.repo`rows
      ensures actor.Valid() && actor.pending.Idle? && old(actor.trace) <= actor.trace && old(actor.now) <= actor.now
      ensures Inv(actor.cfg, actor.View())
      ensures WaitingPart(log, actor.cfg, w, actor.repo.order, old(actor.repo.rows))
      ensures SendingPart(log, actor.cfg, w, actor.repo.order, actor.repo.rows, ok)
      ensures AllAnswered(actor.cfg, w, log.polled, |log.polled|) ==> old(actor.now) <= log.sentAt
      ensures actor.repo.rows.Keys == old(actor.repo.rows.Keys)
    {
      log := NO_LOG;
      var started, startedAt := TickDetected();
      log := log.(started := started, startedAt := startedAt, afterStart := actor.repo.rows);
      var polledOk, expired, polled, mid, polledAt := TickAwaitingAttestation(w);
      log := log.(expired := expired, polled := polled, afterExpiry := mid, polledAt := polledAt, afterPolls := actor.repo.rows);
      ok := polledOk;
      if polledOk {
        var sent, sentAt := TickAttested(w);
        log := log.(sent := sent, sentAt := sentAt, afterSends := actor.repo.rows, checkedFrom := actor.now);
        var checkedOk, checked, handled := TickSubmitted(w);
        log := log.(checked := checked, handled := handled);
        ok := checkedOk;
      }
      RunInv(actor.cfg, actor.trace);
    }
  }
}
