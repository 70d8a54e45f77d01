/**
 * The CCTP job protocol as a transition system. A state is the persisted table, the clock and what the
 * running tick still has to write. Every step is one effect or one guarded single-row write, so a crash
 * between any two of them is just another step.
 */
module Protocol {
  import opened Wrappers
  import opened Hex
  import opened Classify
  import opened IrisClient
  import opened Jobs

  const MAX_RELAY_RETRIES: nat := 5
  const RETRY_BACKOFF_BASE_MS: nat := 2000

  datatype IrisMode = MockIris | RealIris

  datatype Config = Config(
    knownRecipients: set<string>,
    hookRouterByDomain: map<nat, Option<string>>,
    irisMode: IrisMode,
    stuckTxThresholdMs: nat,
    maxAttestationAgeMs: nat)

  function HookRouter(cfg: Config, domain: nat): Option<string> {
    if domain in cfg.hookRouterByDomain then cfg.hookRouterByDomain[domain] else None
  }

  /** What the tick holds in memory between an observed effect and the write that records it. */
  datatype Pending =
    | Idle
    | AcceptedTx(key: string, hash: string, acceptedAt: int)
    | ReplaySeen(key: string)
    | FailureSeen(key: string)

  datatype Sys = Sys(jobs: map<string, Job>, now: int, pending: Pending)

  const INIT := Sys(map[], 0, Idle)

  /** accepted is the ledger's truth: a submission may throw although the network took the transaction. */
  datatype SubmitOutcome = Accepted(hash: string) | Threw(message: string, accepted: bool)

  datatype ReceiptReply = ReceiptFailed | NoReceipt | Receipt(status: nat, block: nat)

  datatype MempoolReply = MempoolFailed | InMempool | Dropped

  /** Crash forgets what was only in memory: a restart, or a database write that failed and ended its tick. */
  datatype Event =
    | Advance(to: int)
    | Claim(msg: IndexedMessageSent, received: bool)
    | StartAwaiting(key: string, tickNow: int)
    | MockAttest(key: string, tickNow: int)
    | Expire(key: string, tickNow: int)
    | Poll(key: string, tickNow: int, reply: HttpReply, attempts: nat)
    | Repoll(key: string, tickNow: int)
    | Broadcast(key: string, tickNow: int, domain: nat, message: string, attestation: string, outcome: SubmitOutcome)
    | MarkSubmitted(key: string, submittedAt: int)
    | MarkReplayed(key: string)
    | CountFailure(key: string)
    | MarkDelivered(key: string, hash: string, receipt: ReceiptReply, deliveredAt: int)
    | RevertClear(key: string, hash: string, receipt: ReceiptReply)
    | DropClear(key: string, tickNow: int, hash: string, receipt: ReceiptReply, mempool: MempoolReply)
    | Crash

  predicate Contains(s: string, part: string) {
    exists i :: 0 <= i <= |s| && part <= s[i..]
  }

  predicate AlreadyProcessed(message: string) {
    || Contains(message, "already processed")
    || Contains(message, "Nonce already used")
    || Contains(message, "Message already processed")
  }

  /** The submitter's words say that the destination has processed the message before. */
  ghost predicate TellsOfReplay(message: string) {
    || (exists pre: string, post: string :: message == pre + "already processed" + post)
    || (exists pre: string, post: string :: message == pre + "Nonce already used" + post)
    || (exists pre: string, post: string :: message == pre + "Message already processed" + post)
  }

  lemma ContainsExactly(s: string, part: string)
    ensures Contains(s, part) <==> exists pre: string, post: string :: s == pre + part + post
  {
    if Contains(s, part) {
      var i :| 0 <= i <= |s| && part <= s[i..];
      assert s == s[..i] + part + s[i + |part|..];
    }
    if pre: string, post: string :| s == pre + part + post {
      assert part <= s[|pre|..];
    }
  }

  /** A replay is told by one of three phrases standing anywhere in the message, and by nothing else. */
  lemma ReplayExactly(message: string)
    ensures AlreadyProcessed(message) <==> TellsOfReplay(message)
  {
    ContainsExactly(message, "already processed");
    ContainsExactly(message, "Nonce already used");
    ContainsExactly(message, "Message already processed");
  }

  function Attestations(cfg: Config, expected: string, reply: HttpReply): AttestationResult {
    if cfg.irisMode.MockIris? then MockFetch(expected) else Fetch(expected, reply)
  }

  /** 2s, 4s, 8s, 16s, 32s after the first, second, ... counted failure. */
  function Delay(attempts: nat): nat
    requires 1 <= attempts
    decreases attempts
  {
    if attempts == 1 then RETRY_BACKOFF_BASE_MS else 2 * Delay(attempts - 1)
  }

  /** Five delays, each twice the one before. */
  lemma DelayTable(attempts: nat)
    requires 1 <= attempts <= 5
    ensures Delay(attempts) == [2000, 4000, 8000, 16000, 32000][attempts - 1]
  {
    assert Delay(2) == 4000 && Delay(3) == 8000 && Delay(4) == 16000 && Delay(5) == 32000;
  }

  // ----- the patches of the ticks -----

  const TO_AWAITING := NO_CHANGE.(state := Put(AwaitingAttestation))
  const TO_EXPIRED := NO_CHANGE.(state := Put(DeadLetter), deadLetterReason := Put(Some(Expired)))
  const TO_EXHAUSTED := NO_CHANGE.(state := Put(DeadLetter), deadLetterReason := Put(Some(RetriesExhausted)))
  const TO_REPLAYED := NO_CHANGE.(state := Put(AlreadyDelivered))
  const TO_RESUBMIT := NO_CHANGE.(state := Put(Attested), submittedTxHash := Put(None), submittedAt := Put(None))

  function ToMockAttested(bytes: string): JobPatch {
    NO_CHANGE.(state := Put(Attested), attestation := Put(Some(MOCK_ATTESTATION)),
               relayMessage := Put(Some(bytes)), lastIrisStatus := Put(Some("mock")))
  }

  function AfterPoll(result: AttestationResult, attempts: nat): JobPatch
    requires !result.Thrown?
  {
    match result
    case Complete(attestation, message) =>
      NO_CHANGE.(state := Put(Attested), attestation := Put(Some(attestation)), relayMessage := Put(Some(message)),
                 lastIrisStatus := Put(Some("complete")), pollAttempts := Put(attempts + 1))
    case Error(problem) => NO_CHANGE.(pollAttempts := Put(attempts + 1), lastIrisStatus := Put(Some("error:" + problem)))
    case Pending(detail) =>
      NO_CHANGE.(pollAttempts := Put(attempts + 1),
                 lastIrisStatus := Put(if detail.Some? then detail else Some("pending")))
  }

  function ToSubmitted(hash: string, at: int): JobPatch {
    NO_CHANGE.(state := Put(Submitted), submittedTxHash := Put(Some(hash)), submittedAt := Put(Some(at)),
               nextRetryAt := Put(None))
  }

  function ToDelivered(hash: string, block: nat, at: int): JobPatch {
    NO_CHANGE.(state := Put(Delivered), deliveredTxHash := Put(Some(hash)), deliveredBlock := Put(Some(block)),
               deliveredAt := Put(Some(at)))
  }

  /** recordSubmissionFailure: count the attempt and back off, or give up past the budget. */
  function AfterFailure(retryAttempts: nat, now: int): JobPatch {
    var attempts := retryAttempts + 1;
    if attempts > MAX_RELAY_RETRIES then TO_EXHAUSTED
    else NO_CHANGE.(retryAttempts := Put(attempts), nextRetryAt := Put(Some(now + Delay(attempts))))
  }

  // ----- steps -----

  /** The repository's guarded write: nothing happens unless the row is still in the expected state. */
  function Guarded(j: Job, from: JobState, patch: JobPatch, at: int): Option<Job> {
    if j.state == from then Some(ApplyPatch(j, patch, at)) else None
  }

  predicate DueAt(j: Job, tickNow: int) {
    j.nextRetryAt.Some? ==> j.nextRetryAt.value <= tickNow
  }

  predicate Succeeded(receipt: ReceiptReply) { receipt.Receipt? && receipt.status == 1 }

  predicate OnChain(j: Job) { j.submittedAt.Some? && j.submittedTxHash.Some? }

  /** The node is asked about the transaction of this hash, which is the job's. */
  predicate Asked(j: Job, hash: string) { OnChain(j) && j.submittedTxHash == Some(hash) }

  predicate BytesReady(j: Job) { j.attestation.Some? && j.relayMessage.Some? }

  /** The key of the row an event writes or broadcasts for. */
  function KeyOf(e: Event): Option<string> {
    match e
    case Advance(_) => None
    case Crash => None
    case Claim(m, _) => Some(m.id)
    case _ => Some(e.key)
  }

  /** Events that write an existing row. */
  predicate IsWrite(e: Event) { !e.Advance? && !e.Crash? && !e.Claim? && !e.Broadcast? }

  /** The row after the write of e; None when e is not possible on row j. */
  function NextRow(cfg: Config, j: Job, e: Event, pending: Pending, now: int): Option<Job>
    requires IsWrite(e)
  {
    match e
    case StartAwaiting(_, tickNow) =>
      if cfg.irisMode.RealIris? && tickNow <= now then Guarded(j, Detected, TO_AWAITING, tickNow) else None
    case MockAttest(_, tickNow) =>
      if cfg.irisMode.MockIris? && tickNow <= now
      then Guarded(j, Detected, ToMockAttested(j.messageBytes), tickNow) else None
    case Expire(_, tickNow) =>
      if tickNow <= now && tickNow - j.detectedAt > cfg.maxAttestationAgeMs
      then Guarded(j, AwaitingAttestation, TO_EXPIRED, tickNow) else None
    case Poll(_, tickNow, reply, attempts) =>
      var result := Attestations(cfg, j.messageBytes, reply);
      if now < tickNow || tickNow - j.detectedAt > cfg.maxAttestationAgeMs || result.Thrown? then None
      else Guarded(j, AwaitingAttestation, AfterPoll(result, attempts), now)
    case Repoll(_, tickNow) =>
      if tickNow <= now && DueAt(j, tickNow) && !BytesReady(j)
      then Guarded(j, Attested, TO_AWAITING, tickNow) else None
    case MarkSubmitted(k, at) =>
      if pending.AcceptedTx? && pending.key == k && pending.acceptedAt <= at <= now
      then Guarded(j, Attested, ToSubmitted(pending.hash, at), now) else None
    case MarkReplayed(k) =>
      if pending == ReplaySeen(k) then Guarded(j, Attested, TO_REPLAYED, now) else None
    case CountFailure(k) =>
      if pending == FailureSeen(k) then Guarded(j, Attested, AfterFailure(j.retryAttempts, now), now) else None
    case MarkDelivered(_, hash, receipt, at) =>
      if pending.Idle? && Asked(j, hash) && at <= now && Succeeded(receipt)
      then Guarded(j, Submitted, ToDelivered(hash, receipt.block, at), now) else None
    case RevertClear(_, hash, receipt) =>
      if pending.Idle? && Asked(j, hash) && receipt.Receipt? && !Succeeded(receipt)
      then Guarded(j, Submitted, TO_RESUBMIT, now) else None
    case DropClear(_, tickNow, hash, receipt, mempool) =>
      if pending.Idle? && tickNow <= now && Asked(j, hash) && tickNow - j.submittedAt.value > cfg.stuckTxThresholdMs
         && receipt.NoReceipt? && mempool.Dropped?
      then Guarded(j, Submitted, TO_RESUBMIT, tickNow) else None
  }

  /** What is left to write after e: a revert still has to be counted, a completion settles the effect. */
  function PendingAfter(e: Event, pending: Pending): Pending {
    match e
    case RevertClear(k, _, _) => FailureSeen(k)
    case MarkSubmitted(_, _) => Idle
    case MarkReplayed(_) => Idle
    case CountFailure(_) => Idle
    case _ => pending
  }

  function AfterSubmit(k: string, outcome: SubmitOutcome, now: int): Pending {
    match outcome
    case Accepted(hash) => AcceptedTx(k, hash, now)
    case Threw(message, _) => if AlreadyProcessed(message) then ReplaySeen(k) else FailureSeen(k)
  }

  predicate CanBroadcast(s: Sys, e: Event)
    requires e.Broadcast?
  {
    && s.pending.Idle? && e.tickNow <= s.now
    && e.key in s.jobs
    && var j := s.jobs[e.key];
       && j.state == Attested && DueAt(j, e.tickNow)
       && j.attestation == Some(e.attestation) && j.relayMessage == Some(e.message)
       && j.destinationDomain == e.domain
  }

  /** One step; None when the event is not possible in s. */
  function Step(cfg: Config, s: Sys, e: Event): Option<Sys> {
    match e
    case Advance(to) => if s.now <= to then Some(s.(now := to)) else None
    case Crash => Some(s.(pending := Idle))
    case Claim(m, received) =>
      if !s.pending.Idle? || !FaithfulRow(m) then None
      else if m.id in s.jobs then Some(s)
      else Some(s.(jobs := s.jobs[m.id :=
        ClaimedJob(m, cfg.knownRecipients, HookRouter(cfg, m.destinationDomain), received, s.now)]))
    case Broadcast(k, _, _, _, _, outcome) =>
      if CanBroadcast(s, e) then Some(s.(pending := AfterSubmit(k, outcome, s.now))) else None
    case _ =>
      if e.key !in s.jobs then None
      else
        var row := NextRow(cfg, s.jobs[e.key], e, s.pending, s.now);
        if row.None? then None
        else Some(s.(jobs := s.jobs[e.key := row.value], pending := PendingAfter(e, s.pending)))
  }

  // ----- runs -----

  function Run(cfg: Config, trace: seq<Event>): Option<Sys> {
    if trace == [] then Some(INIT)
    else
      var before := Run(cfg, trace[..|trace| - 1]);
      if before.None? then None else Step(cfg, before.value, trace[|trace| - 1])
  }

  lemma RunExtend(cfg: Config, trace: seq<Event>, e: Event)
    requires Run(cfg, trace).Some?
    ensures Run(cfg, trace + [e]) == Step(cfg, Run(cfg, trace).value, e)
  {
    assert (trace + [e])[..|trace|] == trace;
  }

  lemma {:induction false} RunPrefix(cfg: Config, trace: seq<Event>, i: nat)
    requires Run(cfg, trace).Some? && i <= |trace|
    ensures Run(cfg, trace[..i]).Some?
  {
    if i < |trace| {
      RunPrefix(cfg, trace[..|trace| - 1], i);
      assert trace[..|trace| - 1][..i] == trace[..i];
    } else {
      assert trace[..i] == trace;
    }
  }

  // ----- the invariant of the table -----

  /** The bytes an attested row would broadcast agree with what was observed at the source. */
  ghost predicate SafeBytes(j: Job) {
    j.relayMessage.Some? ==> IsHexBytes(j.relayMessage.value) && IrisMessageMatches(j.messageBytes, j.relayMessage.value)
  }

  predicate NothingSubmitted(j: Job) {
    j.submittedTxHash.None? && j.submittedAt.None? && j.deliveredTxHash.None?
  }

  predicate Untouched(j: Job) {
    NothingSubmitted(j) && j.retryAttempts == 0 && j.nextRetryAt.None?
  }

  /** Fields each state guarantees. */
  predicate StateFields(j: Job) {
    match j.state
    case Detected => Untouched(j) && j.attestation.None? && j.relayMessage.None? && j.pollAttempts == 0
    case AwaitingAttestation => Untouched(j) && j.attestation.None? && j.relayMessage.None?
    case Attested => BytesReady(j) && NothingSubmitted(j)
    case Submitted => BytesReady(j) && OnChain(j) && j.nextRetryAt.None? && j.deliveredTxHash.None?
    case Delivered =>
      && BytesReady(j) && OnChain(j) && j.deliveredTxHash == j.submittedTxHash
      && j.deliveredBlock.Some? && j.deliveredAt.Some?
    case DeadLetter =>
      && NothingSubmitted(j)
      && (|| (j.deadLetterReason == Some(Expired) && Untouched(j))
          || (j.deadLetterReason == Some(RetriesExhausted) && j.retryAttempts == MAX_RELAY_RETRIES && BytesReady(j)))
    case Skipped => Untouched(j) && j.deadLetterReason.Some? && j.deadLetterReason.value.NotRelayable?
    case AlreadyDelivered => NothingSubmitted(j)
  }

  /** What the claim established about the bytes; it never has to be re-established. */
  ghost predicate ClaimedBytes(cfg: Config, bytes: string, domain: nat, skipped: bool) {
    && IsHexBytes(bytes)
    && DecodeCctpHeader(bytes).Some?
    && DecodeCctpHeader(bytes).value.destinationDomain == domain
    && (!skipped ==> ClassifyMessageForRelay(bytes, cfg.knownRecipients, HookRouter(cfg, domain)).Relay?)
  }

  ghost predicate Progress(j: Job) {
    j.retryAttempts <= MAX_RELAY_RETRIES && SafeBytes(j) && StateFields(j)
  }

  ghost predicate RowInv(cfg: Config, key: string, j: Job) {
    j.dedupKey == key && ClaimedBytes(cfg, j.messageBytes, j.destinationDomain, j.state == Skipped) && Progress(j)
  }

  /** A pending write still finds its row attested, so its guard cannot fail. */
  ghost predicate PendingInv(s: Sys) {
    && (!s.pending.Idle? ==> s.pending.key in s.jobs && s.jobs[s.pending.key].state == Attested)
    && (s.pending.AcceptedTx? ==> s.pending.acceptedAt <= s.now)
  }

  ghost predicate Inv(cfg: Config, s: Sys) {
    && (forall k :: k in s.jobs ==> RowInv(cfg, k, s.jobs[k]))
    && PendingInv(s)
  }

  lemma ClaimedRowInv(cfg: Config, m: IndexedMessageSent, received: bool, now: int)
    requires FaithfulRow(m)
    ensures RowInv(cfg, m.id, ClaimedJob(m, cfg.knownRecipients, HookRouter(cfg, m.destinationDomain), received, now))
  {
  }

  lemma PolledProgress(cfg: Config, j: Job, reply: HttpReply, attempts: nat, now: int)
    requires Progress(j) && j.state == AwaitingAttestation
    requires IsHexBytes(j.messageBytes) && !Attestations(cfg, j.messageBytes, reply).Thrown?
    ensures Progress(ApplyPatch(j, AfterPoll(Attestations(cfg, j.messageBytes, reply), attempts), now))
  {
    MatchIsEquivalence(j.messageBytes, j.messageBytes, j.messageBytes);
    if cfg.irisMode.RealIris? && Fetch(j.messageBytes, reply).Complete? {
      FetchIsSafe(j.messageBytes, reply);
    }
  }

  /** The writes before the first broadcast. */
  predicate IsEarly(e: Event) { e.StartAwaiting? || e.MockAttest? || e.Expire? || e.Poll? || e.Repoll? }

  /** The job is the same, and its fields fit the state it is in. */
  ghost predicate Written(j: Job, r: Job, e: Event) {
    && SameIdentity(j, r) && j.state != Skipped && r.state != Skipped
    && StateFields(r) && r.retryAttempts <= MAX_RELAY_RETRIES
    && (!e.Poll? && !e.MockAttest? ==> r.relayMessage == j.relayMessage)
  }

  lemma EarlyFields(cfg: Config, j: Job, e: Event, pending: Pending, now: int)
    requires StateFields(j) && j.retryAttempts <= MAX_RELAY_RETRIES && IsWrite(e) && IsEarly(e)
    requires NextRow(cfg, j, e, pending, now).Some?
    ensures Written(j, NextRow(cfg, j, e, pending, now).value, e)
  {
  }

  lemma LateFields(cfg: Config, j: Job, e: Event, pending: Pending, now: int)
    requires StateFields(j) && j.retryAttempts <= MAX_RELAY_RETRIES && IsWrite(e) && !IsEarly(e)
    requires NextRow(cfg, j, e, pending, now).Some?
    ensures Written(j, NextRow(cfg, j, e, pending, now).value, e)
  {
  }

  /** A write keeps who the job is, and its fields fit the state it enters. */
  lemma WrittenFields(cfg: Config, j: Job, e: Event, pending: Pending, now: int)
    requires StateFields(j) && j.retryAttempts <= MAX_RELAY_RETRIES && IsWrite(e)
    requires NextRow(cfg, j, e, pending, now).Some?
    ensures Written(j, NextRow(cfg, j, e, pending, now).value, e)
  {
    if IsEarly(e) {
      EarlyFields(cfg, j, e, pending, now);
    } else {
      LateFields(cfg, j, e, pending, now);
    }
  }

  lemma WrittenRow(cfg: Config, j: Job, e: Event, pending: Pending, now: int)
    requires Progress(j) && IsHexBytes(j.messageBytes) && IsWrite(e)
    requires NextRow(cfg, j, e, pending, now).Some?
    ensures var r := NextRow(cfg, j, e, pending, now).value;
            SameIdentity(j, r) && j.state != Skipped && r.state != Skipped && Progress(r)
  {
    WrittenFields(cfg, j, e, pending, now);
    if e.Poll? {
      PolledProgress(cfg, j, e.reply, e.attempts, now);
    } else if e.MockAttest? {
      MatchIsEquivalence(j.messageBytes, j.messageBytes, "");
    }
  }

  /** A step inserts its row or writes it once; every other row is left alone. */
  lemma StepFrame(cfg: Config, s: Sys, e: Event)
    requires Step(cfg, s, e).Some?
    ensures var t := Step(cfg, s, e).value;
            && s.now <= t.now
            && (IsWrite(e) ==> e.key in s.jobs && e.key in t.jobs && t.jobs == s.jobs[e.key := t.jobs[e.key]])
            && (e.Claim? ==> e.msg.id in t.jobs && (if e.msg.id in s.jobs then t.jobs == s.jobs
                                                    else t.jobs == s.jobs[e.msg.id := t.jobs[e.msg.id]]))
            && (!IsWrite(e) && !e.Claim? ==> t.jobs == s.jobs)
  {
  }

  lemma StepRowInv(cfg: Config, s: Sys, e: Event, k: string)
    requires Inv(cfg, s) && Step(cfg, s, e).Some? && k in Step(cfg, s, e).value.jobs
    ensures RowInv(cfg, k, Step(cfg, s, e).value.jobs[k])
  {
    StepFrame(cfg, s, e);
    if e.Claim? && e.msg.id == k && k !in s.jobs {
      ClaimedRowInv(cfg, e.msg, e.received, s.now);
    } else if IsWrite(e) && e.key == k {
      assert RowInv(cfg, k, s.jobs[k]);
      WrittenRow(cfg, s.jobs[k], e, s.pending, s.now);
    }
  }

  /** Between an effect and the write recording it nothing else can move that row. */
  lemma StepPendingInv(cfg: Config, s: Sys, e: Event)
    requires PendingInv(s) && Step(cfg, s, e).Some?
    requires IsWrite(e) && e.key in s.jobs ==> StateFields(s.jobs[e.key])
    ensures PendingInv(Step(cfg, s, e).value)
  {
  }

  lemma StepInv(cfg: Config, s: Sys, e: Event)
    requires Inv(cfg, s) && Step(cfg, s, e).Some?
    ensures Inv(cfg, Step(cfg, s, e).value)
  {
    var t := Step(cfg, s, e).value;
    forall k | k in t.jobs ensures RowInv(cfg, k, t.jobs[k]) {
      StepRowInv(cfg, s, e, k);
    }
    if IsWrite(e) && e.key in s.jobs {
      assert RowInv(cfg, e.key, s.jobs[e.key]);
    }
    StepPendingInv(cfg, s, e);
  }

  /** The invariant holds after every prefix of every run, hence after a crash at any point. */
  lemma {:induction false} RunInv(cfg: Config, trace: seq<Event>)
    requires Run(cfg, trace).Some?
    ensures Inv(cfg, Run(cfg, trace).value)
  {
    if trace != [] {
      RunInv(cfg, trace[..|trace| - 1]);
      StepInv(cfg, Run(cfg, trace[..|trace| - 1]).value, trace[|trace| - 1]);
    }
  }
}
