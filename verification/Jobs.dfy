/** The persistent job row, the patches a transition may apply, and the row a claim inserts. */
module Jobs {
  import opened Wrappers
  import opened Hex
  import opened Classify

  datatype JobState =
    | Detected
    | AwaitingAttestation
    | Attested
    | Submitted
    | Delivered
    | DeadLetter
    | Skipped
    | AlreadyDelivered

  predicate Terminal(s: JobState) { s in {Delivered, DeadLetter, Skipped, AlreadyDelivered} }

  datatype Reason = Expired | RetriesExhausted | NotRelayable(skip: SkipReason)

  /** Times are epoch milliseconds. */
  datatype Job = Job(
    dedupKey: string,
    messageHash: string,
    messageBytes: string,
    sourceDomain: nat,
    destinationDomain: nat,
    nonce: string,
    sourceTxHash: string,
    sourceBlock: nat,
    state: JobState,
    detectedAt: int,
    pollAttempts: nat,
    lastIrisStatus: Option<string>,
    attestation: Option<string>,
    relayMessage: Option<string>,
    retryAttempts: nat,
    nextRetryAt: Option<int>,
    submittedTxHash: Option<string>,
    submittedAt: Option<int>,
    deliveredTxHash: Option<string>,
    deliveredBlock: Option<nat>,
    deliveredAt: Option<int>,
    deadLetterReason: Option<Reason>,
    updatedAt: int)

  datatype Change<+T> = Keep | Put(value: T)

  datatype JobPatch = JobPatch(
    state: Change<JobState>,
    pollAttempts: Change<nat>,
    lastIrisStatus: Change<Option<string>>,
    attestation: Change<Option<string>>,
    relayMessage: Change<Option<string>>,
    retryAttempts: Change<nat>,
    nextRetryAt: Change<Option<int>>,
    submittedTxHash: Change<Option<string>>,
    submittedAt: Change<Option<int>>,
    deliveredTxHash: Change<Option<string>>,
    deliveredBlock: Change<Option<nat>>,
    deliveredAt: Change<Option<int>>,
    deadLetterReason: Change<Option<Reason>>)

  const NO_CHANGE := JobPatch(Keep, Keep, Keep, Keep, Keep, Keep, Keep, Keep, Keep, Keep, Keep, Keep, Keep)

  function Changed<T>(c: Change<T>, was: T): T { if c.Put? then c.value else was }

  /** Object.assign(job, patch, { updatedAt: now }) */
  function ApplyPatch(j: Job, p: JobPatch, now: int): Job {
    j.(state := Changed(p.state, j.state),
       pollAttempts := Changed(p.pollAttempts, j.pollAttempts),
       lastIrisStatus := Changed(p.lastIrisStatus, j.lastIrisStatus),
       attestation := Changed(p.attestation, j.attestation),
       relayMessage := Changed(p.relayMessage, j.relayMessage),
       retryAttempts := Changed(p.retryAttempts, j.retryAttempts),
       nextRetryAt := Changed(p.nextRetryAt, j.nextRetryAt),
       submittedTxHash := Changed(p.submittedTxHash, j.submittedTxHash),
       submittedAt := Changed(p.submittedAt, j.submittedAt),
       deliveredTxHash := Changed(p.deliveredTxHash, j.deliveredTxHash),
       deliveredBlock := Changed(p.deliveredBlock, j.deliveredBlock),
       deliveredAt := Changed(p.deliveredAt, j.deliveredAt),
       deadLetterReason := Changed(p.deadLetterReason, j.deadLetterReason),
       updatedAt := now)
  }

  /** What identifies a job; no step of the protocol may change it. */
  predicate SameIdentity(a: Job, b: Job) {
    && a.dedupKey == b.dedupKey
    && a.messageHash == b.messageHash
    && a.messageBytes == b.messageBytes
    && a.sourceDomain == b.sourceDomain
    && a.destinationDomain == b.destinationDomain
    && a.nonce == b.nonce
    && a.sourceTxHash == b.sourceTxHash
    && a.sourceBlock == b.sourceBlock
    && a.detectedAt == b.detectedAt
  }

  /** A MessageSent row as the watcher indexes it or as the scanner rebuilds it from a log. */
  datatype IndexedMessageSent = IndexedMessageSent(
    id: string,
    chainId: nat,
    sourceDomain: nat,
    destinationDomain: nat,
    messageBytes: string,
    messageHash: string,
    sourceTxHash: string,
    logIndex: nat,
    blockNumber: nat)

  /** keccak256, kept symbolic: equal hashes mean equal bytes. */
  function Keccak256(bytes: string): string { "keccak256:" + bytes }

  /** Both producers decode the domains out of the on-chain bytes. */
  predicate FaithfulRow(m: IndexedMessageSent) {
    && IsHexBytes(m.messageBytes)
    && var h := DecodeCctpHeader(m.messageBytes);
       h.Some? && h.value.sourceDomain == m.sourceDomain && h.value.destinationDomain == m.destinationDomain
  }

  function ZeroNonce(): string { "0x" + Zeros(64) }

  function NewJob(m: IndexedMessageSent, state: JobState, now: int): Job {
    var header := DecodeMessageHeader(m.messageBytes);
    var hash := if m.messageHash == "" then Keccak256(m.messageBytes) else m.messageHash;
    Job(m.id, hash, m.messageBytes, m.sourceDomain, m.destinationDomain,
        if header.Some? then header.value.nonce else ZeroNonce(),
        m.sourceTxHash, m.blockNumber, state, now, 0, None, None, None, 0, None, None, None, None, None, None,
        None, now)
  }

  /** claimMessage: the row to insert. received says whether the destination already saw the nonce. */
  function ClaimedJob(m: IndexedMessageSent, known: set<string>, hookRouter: Option<string>,
                      received: bool, now: int): Job {
    var job := NewJob(m, Detected, now);
    match ClassifyMessageForRelay(m.messageBytes, known, hookRouter)
    case Skip(reason) => job.(state := Skipped, deadLetterReason := Some(NotRelayable(reason)))
    case Relay(_) =>
      if job.nonce != ZeroNonce() && received then job.(state := AlreadyDelivered) else job
  }
}
