# Relayer v2: verified model

A Dafny model of the actor and watcher of `relayer-v2`: the job protocol that carries CCTP messages from their source
chain to their destination, the `/relay` pipeline, fee quotes, rate limiting, and the quick-sync endpoints. The proofs
are about every run, every interleaving and every input unless a row below names a condition.

**Job protocol.** `Protocol` is a transition system over the persisted table, the clock and what a tick still has to
write. Each event is one effect (a broadcast, an observed revert) or one guarded single-row write, so a crash between
any two writes is just another event, and polls of one tick, also polls left over from an aborted tick, interleave
freely. What the network, Iris, the mempool and the clock answer is chosen by the environment. `RunSafety`,
`RunOrigins`, `RunLedger`, `RunRetries`, `RunMeasure` and `RunRecovery` prove what all runs keep. `StateMachine`, `WorkDiscovery`,
`LogScan`, `FallbackScanner` and `JobTick` are the ticks as imperative code over the job table (`JobsRepo`); each keeps
a ghost trace and is proved to be a run of the protocol, so whatever all runs keep, the ticks keep, and on top of that
states what it does to every listed row, given what Iris, the network and the node answer about that job. That some run
goes on does not carry over in this way: `Draining` proves of the ticks themselves, with their listings and limits, that
they finish every job once the outside answers. A tick runs the scanners of all chains one after the other.
`PollingOrder` says which waiting rows a tick polls, and `Starvation` gives runs in which one of them never is.

**Relay pipeline.** `PrivacyRelay` cuts a request at its awaits and interleaves any number of them with quote
regenerations, overlapping ones too, and cache sweeps; its state holds the calculator's slots and everything it issued,
so a quote that a request names is resolved against what was really quoted. `FeeVerifiers`, `FeeCalculator`, `FeeArithmetic`,
`DedupCache` and `RateLimiter` are its parts. `NonceCoordinator` is the nonce stream of one chain, and `SharedStream`
says what it does to the job broadcasts and relay requests that share it.

**Quick-sync.** `QuickSyncDecode` and `QuickSyncNative` are the two decoders, `QuickSyncApi` the block windows of the
two endpoints, what caches may keep of their replies, and a client following the pages.

Times are integer milliseconds on a clock that never goes back; integers are unbounded, as the source uses bigints or
values far below 2^53. Token counts of the rate limiter are reals; the fee buffer is compared after multiplying out.
Hashes are symbolic and injective; ABI decoding, Poseidon and note decryption are arbitrary functions.

Where the code does less than its documentation promises, the exact condition is proved:

- A page of `/v1/quick-sync` cached as immutable is not what the endpoint answers later: `indexedThrough` goes on, and
  nothing else changes with confirmations or for a full window (`OnlyHeadAges`). Its content is final exactly then
  (`CachedContentIsFinal`). It tells every client that gets it to stop paging, also after the chain has gone on, exactly
  with zero confirmations, as in the local topology (deployments/topology.json:23), and a page that reaches the
  indexing head (`CachedPageEndsPaging`). Such a client ends below the head (`EndsBelowHead`), every other one reaches it
  (`FollowPages`).
- A reply of `/v2/quick-sync` cached as immutable is final exactly with confirmations or when it was not cut at the
  indexing head (`CachedNativeIsFinal`).
- `/v2/quick-sync` from block 0 before anything is indexed answers that block 0 is covered; every other reply claims
  only indexed blocks (`V2CoversItsClaim`).
- A live quote resolves exactly when fewer than two schedules were installed for its chain after it
  (`ResolvesAmongLastTwo`). Requests for fees are not serialised, so on a chain without a schedule the first of three
  that overlap is answered with a live quote that does not resolve any more once the third is answered, whatever the
  buffer (`OverlapDropsLiveQuote`). Without overlap one-deep retention keeps every live quote exactly when the variance
  buffer is at most 10000 bps (`BufferBoundIsExact`). The gross-up of the gasless tiers works exactly below a shield fee
  of 10000 bps (`GrossUpWorksExactly`); the configuration bounds neither from above (actor/src/config/env.ts:179-181).
- The verifier of the hub's gasless fee note compares the note's value with an amount of USDC and never reads the
  note's token (`NoteTokenIsNotRead`), so what an approved request pays is an amount of the note's own token.
- A broadcast that the network took but that was reported as failed leaves the nonce stream offering a used nonce
  (`LostReplyHappens`). From there every submission fails, however long the stream goes on, until it reads a seed or a
  submission that replaces the lost transaction at its nonce resolves (`StaysBlocked`); either unblocks it
  (`CatchingUpUnblocks`). Until then no job bound for the chain is submitted and no relay request for it succeeds
  (`LostReplyStallsJobs`, `LostReplyStallsRequests`).
- A reset of the nonce stream is lost when it comes while the seed is being read, also when the submission then fails
  (`SeedingResetIsLost`); in flight it survives exactly a failure, and between submissions always
  (`FlightResetSurvivesFailure`, `IdleResetReseeds`).
- The edge back from attested to waiting for Iris is coded but cannot be taken by any row this actor claimed
  (`ClaimedRowsNeverRepoll`).
- An unexpired waiting job is polled in a tick exactly when fewer than a hundred waiting jobs precede it, by detection
  time and then by insertion, and fewer than eight of those are unexpired (`PolledExactly`). So a job behind eight at
  least as old that get no answer expires without a single poll, however many ticks run, unless one of them falls
  between the expiry of the eight and its own; for nine jobs claimed at one time no tick can (`NinthExpiresUnpolled`,
  `StarvationHappens`).
- The engine shape omits a zero shield fee, the native shape says "0"; everything else is the same fact in
  another encoding (`FormatsAgree`).

## Model

| member | source | states |
|---|---|---|
| Protocol.RunInv | relayer-v2/actor/src/jobs/state-machine.ts:55-62 | After every prefix of every run each row has the fields its state promises (submitted rows have bytes, hash and time; delivered rows have deliveredTxHash = submittedTxHash), at most 5 retries and safe bytes, and a pending write still finds its row attested |
| Protocol.WrittenRow | relayer-v2/actor/src/jobs/state-machine.ts:71-312 | Each guarded write keeps the job's identity and leads to a row whose fields fit the state it enters |
| Protocol.StepFrame | relayer-v2/actor/src/db/jobs-repo.ts:202-231 | A step inserts its row or writes it once and leaves every other row alone |
| RunSafety.OnlyCodedEdges | relayer-v2/actor/src/jobs/state-machine.ts:71-312 | Each event of a run moves a row along one of the coded state changes or leaves its state alone; identity never changes |
| RunSafety.ClaimedRowsNeverRepoll | relayer-v2/actor/src/jobs/state-machine.ts:166-176 | The fallback from attested to awaiting_attestation happens in no run of claimed rows |
| RunSafety.RowsPersist | relayer-v2/actor/src/db/jobs-repo.ts:202-231 | Between any two moments a row stays, is the same job, and a final row is unchanged in every field |
| RunSafety.PendingWriteLands | relayer-v2/actor/src/jobs/state-machine.ts:183-211 | The guarded write that records an observed effect never misses its row |
| RunSafety.RowsAreClaimed | relayer-v2/actor/src/jobs/work-discovery.ts:62-90 | Every row of every run was inserted by a claim of a message with that key and those bytes |
| RunSafety.ClaimedOnce | relayer-v2/actor/src/jobs/work-discovery.ts:86-89 | However discovery and the fallback scanner race on a message, exactly one claim inserts its row |
| RunSafety.BroadcastsAreSafe | relayer-v2/actor/src/jobs/state-machine.ts:177-182 | Every broadcast carries the bytes observed at the source outside the four slots Circle fills and goes to the destination domain at bytes 8-12 of what is sent; what is sent is still relayable: bytes 184-216 are a known recipient, and we may deliver it as far as the destination caller says |
| RunLedger.BroadcastsConserved | relayer-v2/actor/src/jobs/state-machine.ts:177-312 | Per job, in every run: accepted broadcasts = observed reverts + observed drops + outstanding + those lost to a crash before their hash was written + those accepted although the call threw |
| RunLedger.CrashFreeConservation | relayer-v2/actor/src/jobs/state-machine.ts:242-312 | Without restarts and failed database writes, and with throwing meaning not accepted, the last two terms vanish and at most one transaction is outstanding |
| RunLedger.AtMostOneOutstanding | relayer-v2/actor/src/jobs/state-machine.ts:183-194 | No job ever has two transactions neither resolved nor forgotten |
| RunLedger.RebroadcastOnlyAfterResolution | relayer-v2/actor/src/jobs/state-machine.ts:268-308 | Between an acknowledged broadcast of a job and its next one the node, asked about the hash of that very broadcast, had a receipt that it failed, or past the stuck threshold neither a receipt for it nor the transaction in its mempool |
| RunOrigins.HashWasBroadcast | relayer-v2/actor/src/jobs/state-machine.ts:177-194 | Whenever a row is submitted or delivered, its hash is the one a broadcast of this very job was acknowledged with, stored no earlier than that, and the transaction has not been seen reverted or dropped since |
| RunOrigins.AskedAboutBroadcast | relayer-v2/actor/src/jobs/state-machine.ts:248-293 | The receipt and the mempool are only ever asked about the hash of an acknowledged broadcast of the job that is not resolved yet |
| RunOrigins.DeliveryWasConfirmed | relayer-v2/actor/src/jobs/state-machine.ts:253-267 | A delivered row carries the hash, the block and the time of a receipt of success for its own broadcast |
| RunOrigins.BroadcastsAreAttested | relayer-v2/actor/src/jobs/state-machine.ts:133-182 | With a real Iris, the message and the attestation of a broadcast stand together in one entry of one earlier reply for this job, the first that agrees with the observed bytes |
| RunOrigins.ExpiredWasOld | relayer-v2/actor/src/jobs/state-machine.ts:103-118 | In every run a row given up as expired was past the attestation age when its tick began |
| RunOrigins.PolledWasYoung | relayer-v2/actor/src/jobs/state-machine.ts:106-122 | Iris is only asked about rows that were not past the attestation age when their tick began |
| Protocol.ReplayExactly | relayer-v2/actor/src/jobs/state-machine.ts:195-197 | A failed submission counts as already delivered exactly when its text contains one of the three phrases |
| RunRetries.BroadcastsRespectBackoff | relayer-v2/actor/src/jobs/state-machine.ts:227-234 | No attempt starts before the last counted failure plus 2000 * 2^(n-1) ms for n failures |
| RunRetries.RetryBudget | relayer-v2/actor/src/jobs/state-machine.ts:214-239 | retryAttempts never passes 5 and is the number of counted failures; a job given up on had 6, at least 62000 ms from first to last |
| RunRetries.FailuresCountedOnce | relayer-v2/actor/src/jobs/state-machine.ts:195-210 | Every failed submission or revert is counted exactly once unless a crash or a failed database write came before the count was written |
| RunRetries.GivingUpTakesSixFailures | relayer-v2/actor/src/jobs/state-machine.ts:217-226 | Without restarts and failed database writes, a job is given up after exactly six failures |
| RunMeasure.WriteDescends | relayer-v2/actor/src/jobs/state-machine.ts:161-283 | Every write that changes state or retry counter lowers remaining retries and phase rank combined, on any row within budget, also one without bytes; only the drop recovery raises it, by at most 6 |
| RunMeasure.MovesAreBounded | relayer-v2/actor/src/jobs/state-machine.ts:71-312 | A job makes at most 110 moves plus 7 per mempool drop and per failure a crash left uncounted |
| RunRecovery.NeverWedged | relayer-v2/actor/src/jobs/state-machine.ts:55-62 | In the protocol, from every reachable state, also right after a crash, every unfinished job has a continuation that delivers it; only one past the attestation age while waiting ends in dead_letter |
| Draining.TickAdvances | relayer-v2/actor/src/jobs/state-machine.ts:57-312 | When the outside answers well about every unfinished job and no retry is pending, a tick fails nowhere and brings some job nearer to its end, unless all have ended |
| Draining.TickUntilDone | relayer-v2/actor/src/jobs/state-machine.ts:57-312 | At most four such ticks for each row end every job, whatever is listed and polled in which of them |
| Draining.FinishAll | relayer-v2/actor/src/jobs/state-machine.ts:55-62 | From any moment of any run, with a restart there: once the latest retry is due, that many ticks deliver every unfinished job, except those that pass the attestation age while they wait for Iris, which expire |
| Draining.HelpfulWorldAnswers | relayer-v2/actor/src/jobs/iris-client.ts:113-155 | Such answers exist for every reachable table: Iris returning the observed bytes themselves |
| IrisClient.MatchIsPointwise | relayer-v2/actor/src/jobs/iris-client.ts:48-76 | The nested masks accept exactly when the normalised lengths agree and every digit outside bytes 12-44, 144-148, 312-344 and 344-376 agrees, at every length |
| IrisClient.MatchIsEquivalence | relayer-v2/actor/src/jobs/iris-client.ts:54-76 | Matching is reflexive, symmetric and transitive |
| IrisClient.MatchPreservesMeaning | relayer-v2/actor/src/jobs/iris-client.ts:54-76 | A matching message has the same classification and the same source and destination domains |
| IrisClient.MaxFeeIsCompared | relayer-v2/actor/src/jobs/iris-client.ts:54-57 | A difference in maxFee (bytes 280-312) is always refused |
| IrisClient.FetchCompletesExactly | relayer-v2/actor/src/jobs/iris-client.ts:113-155 | A lookup completes exactly when a success reply's first agreeing entry is complete and has plausible attestation and message bytes |
| IrisClient.TrustworthyIsAccepted | relayer-v2/actor/src/jobs/iris-client.ts:126-154 | Such an entry is never passed over, and its own bytes are what is returned |
| IrisClient.FetchIsSafe | relayer-v2/actor/src/jobs/iris-client.ts:140-153 | Accepted bytes are whole hex bytes of at least 376 bytes that agree with the observed message |
| IrisClient.FetchExplained | relayer-v2/actor/src/jobs/iris-client.ts:113-155 | A lookup is pending exactly for a 404, an empty list or an unfinished entry it goes by, rejects exactly for a JSON null, and else completes or is an error |
| IrisClient.JudgedWrong | relayer-v2/actor/src/jobs/iris-client.ts:140-153 | The error of a finished entry names the first thing wrong with it: its attestation, its message, or whose message it is |
| Classify.DecodersAgree | relayer-v2/actor/src/jobs/classify.ts:108-118 | Wherever the actor's header decoder succeeds, the watcher's finds the same domains and, up to case, the same nonce |
| Classify.ClassifiedExactly | relayer-v2/actor/src/jobs/classify.ts:36-92 | A message is relayed exactly when it is hex of at least 376 bytes, bytes 148-152 are the number 1, bytes 184-216 are a known recipient, and bytes 108-140 are zero or no hook router is configured or they are its padded address; otherwise the reason is the first of these that fails |
| JobsRepo.ListingIsOldestRows | relayer-v2/actor/src/db/jobs-repo.ts:213-219 | A listing holds current rows of the state, each once, oldest first, and leaves a row out only when it is full of rows at least as old |
| JobsRepo.ListedExactly | relayer-v2/actor/src/db/jobs-repo.ts:213-219 | A row is listed exactly when fewer rows of its state than the limit precede it, by detection time and then by insertion |
| JobsRepo.InMemoryJobsRepo.InsertIfAbsent | relayer-v2/actor/src/db/jobs-repo.ts:202-206 | Inserts exactly when the key is free, else changes nothing |
| JobsRepo.InMemoryJobsRepo.Transition | relayer-v2/actor/src/db/jobs-repo.ts:221-231 | Applies the patch exactly when the row is still in the expected state |
| JobsRepo.InMemoryJobsRepo.MaxSourceBlock | relayer-v2/actor/src/db/jobs-repo.ts:269-277 | The highest source block claimed for the domain; none when the domain has no row |
| StateMachine.CctpStateMachine.TickDetected | relayer-v2/actor/src/jobs/state-machine.ts:72-99 | Each of the first hundred detected rows waits for Iris from now on, or in mock mode is attested with its own bytes and the attestation 0x; no other row changes, and the tick is a run of the protocol |
| StateMachine.CctpStateMachine.TickAwaitingAttestation | relayer-v2/actor/src/jobs/state-machine.ts:102-157 | Exactly the expired listed rows are dead-lettered, then the first eight others are polled in any order, each row ending as its own reply says; the tick fails exactly when a lookup rejects |
| PollingOrder.PolledExactly | relayer-v2/actor/src/jobs/state-machine.ts:103-120 | An unexpired waiting row is polled exactly when fewer than a hundred waiting rows precede it and fewer than eight of those are unexpired |
| PollingOrder.RowInTick | relayer-v2/actor/src/jobs/state-machine.ts:102-157 | What one tick does to any waiting row: untouched behind a hundred others, dead-lettered past its age, polled with fewer than eight unexpired ones ahead, else untouched |
| Starvation.NinthExpiresUnpolled | relayer-v2/actor/src/jobs/state-machine.ts:103-120 | Of any nine relayable messages, the first eight claimed at one time and unanswered, the ninth claimed with them or later, the ninth ends expired with no poll counted after any number of ticks, unless it came later and a tick falls between the two expiries |
| Starvation.StarvationHappens | relayer-v2/actor/src/jobs/state-machine.ts:103-120 | Such runs, with concrete messages and an unreachable Iris |
| StateMachine.CctpStateMachine.TickAttested | relayer-v2/actor/src/jobs/state-machine.ts:161-212 | A listed row not due is untouched; a due one is sent and, as its outcome says, is submitted under the hash it was acknowledged with and without a retry time, or already delivered, or has one more failure with a delay of 2, 4, 8, 16, 32 s, or is dead after the sixth; no other row changes |
| StateMachine.CctpStateMachine.RecordSubmissionFailure | relayer-v2/actor/src/jobs/state-machine.ts:214-239 | Counts the failure with a delay of 2, 4, 8, 16, 32 s, or gives up at the sixth |
| StateMachine.CctpStateMachine.TickSubmitted | relayer-v2/actor/src/jobs/state-machine.ts:242-312 | Each handled row ends as the node's answers about it say: delivered with its own hash, reverted with one counted failure, cleared when stuck and dropped, or still waiting; the tick stops exactly at a job the node does not answer for |
| StateMachine.CctpStateMachine.Tick | relayer-v2/actor/src/jobs/state-machine.ts:57-62 | The four ticks in order, each sweeping the table the one before left, with a rejected poll or an unanswered job ending it there; the whole is a run of the protocol without a restart and the invariant holds after it |
| WorkDiscovery.UnclaimedMessages | relayer-v2/actor/src/db/indexed-reader.ts:124-137 | Returns the first `limit` confirmed, unclaimed messages in block order |
| WorkDiscovery.BatchIsNew | relayer-v2/actor/src/db/indexed-reader.ts:124-137 | A batch is confirmed (block at most lastIndexed minus confirmations), unclaimed, free of repeats and in block order |
| WorkDiscovery.ConfirmationGate | relayer-v2/actor/src/jobs/work-discovery.ts:95-101 | The gate of a chain is its last indexed block minus its confirmations, present exactly when that is a block and the chain is configured |
| WorkDiscovery.ClaimMessage | relayer-v2/actor/src/jobs/work-discovery.ts:62-90 | Inserts a fresh row of the message exactly when the key is free: skipped with the first check its bytes fail, already delivered when it is relayable and a nonce it carries was seen at the destination, detected otherwise; all other rows stay |
| WorkDiscovery.DiscoverWork | relayer-v2/actor/src/jobs/work-discovery.ts:93-114 | One tick claims exactly the first 100 unclaimed messages behind the gate, each as its own bytes and the destination say |
| WorkDiscovery.ClaimingDrains | relayer-v2/actor/src/jobs/work-discovery.ts:104-113 | Claiming the first k unclaimed messages leaves exactly the others, in the same order |
| WorkDiscovery.DiscoveryDrains | relayer-v2/actor/src/jobs/work-discovery.ts:92-114 | With n messages and no arrivals, k ticks leave exactly the last max(0, n - 100k), taken from the front |
| LogScan.BisectingGetLogs | relayer-v2/actor/src/jobs/fallback-scanner.ts:74-91 | Over a node that may refuse any call: the logs of the range with every block in exactly one answered call, or an error after a single block was refused; at most 2n - 1 calls |
| LogScan.GetLogsChunked | relayer-v2/actor/src/jobs/fallback-scanner.ts:56-72 | The chunked scan returns what one direct request for the whole range would, or fails on a single block |
| LogScan.EachBlockOnce | relayer-v2/actor/src/jobs/fallback-scanner.ts:64-71 | In a tiling every block of the range lies in exactly one range |
| FallbackScanner.ToIndexedShape | relayer-v2/actor/src/jobs/fallback-scanner.ts:175-198 | A log becomes a row whose domains are those in its bytes, or nothing when it does not parse |
| FallbackScanner.ShapedExactly | relayer-v2/actor/src/jobs/fallback-scanner.ts:175-198 | A log parses exactly when it carries whole bytes of at least 148 bytes; the row has the id hash:index, the domains at bytes 4 and 8, and the place of the log |
| FallbackScanner.DedupKeyInjective | relayer-v2/actor/src/jobs/fallback-scanner.ts:187 | The id of a row determines the transaction hash and the log index of the log it stands for |
| FallbackScanner.ChainScanner.SwitchOver | relayer-v2/actor/src/jobs/fallback-scanner.ts:118-145 | Off exactly when the watcher has indexed recently enough and, for an active scanner with a cursor, at least up to the cursor; on otherwise; the cursor survives only an activation that goes on |
| FallbackScanner.ChainScanner.ScanToHead | relayer-v2/actor/src/jobs/fallback-scanner.ts:154-172 | Given the head the cursor moves behind head minus confirmations, after every parseable log in between and no other was claimed, with the same lookahead as in discovery, or stays and nothing is claimed: when already there, or when the head could not be read; a refused single block leaves the cursor |
| FallbackScanner.ChainScanner.TickChain | relayer-v2/actor/src/jobs/fallback-scanner.ts:110-173 | A tick keeps the coverage behind the cursor and claims only confirmed logs from its first block on; while the scanner stays on its windows only grow at the end, and an activation with watcher progress starts right behind the last indexed block |
| JobTick.TickScanners | relayer-v2/actor/src/jobs/fallback-scanner.ts:102-108 | The scanners of all chains take their turns in order, each moving as its own inputs say; the first that fails ends the scan, the ones behind it are not touched; what is new in the table are claims of confirmed messages of the chains that had their turn, and every scanner still covers what is behind its cursor |
| JobTick.RunJobTick | relayer-v2/actor/src/main.ts:215-229 | A whole tick, also one that fails half-way, claims the discovery batch, runs the four job ticks on the table that left and then the scanners, is a run of the protocol and keeps every scanner's coverage |
| JobTick.ScannerClaimsAreConfirmed | relayer-v2/actor/src/jobs/fallback-scanner.ts:154-172 | Every row that the scanners of a tick insert carries a log of one of their chains that is not before the first block of that scan and at most at head minus confirmations |
| JobTick.RowsStayGenuine | relayer-v2/actor/src/jobs/fallback-scanner.ts:167-172 | When a transaction hash and a log index name one log and the watcher indexes these logs as they are, every row under the id of a log has that log's bytes, transaction, block and domains, through a whole tick |
| JobTick.NoGap | relayer-v2/actor/src/jobs/fallback-scanner.ts:123-173 | Every parseable message below max(lastIndexed + 1, cursor) is indexed by the watcher or has a job row with its own bytes, transaction, block and domains |
| JobTick.WindowsTileTheChain | relayer-v2/actor/src/jobs/fallback-scanner.ts:147-172 | The windows of an activation are disjoint, ascending and without gap between its base and its cursor |
| NonceCoordinator.FirstInFirstOut | relayer-v2/actor/src/wallet/nonce-coordinator.ts:30-44 | Submissions start in the order they were made, whether for relay requests or for jobs, one at a time, none twice and none skipped |
| NonceCoordinator.NonceLaw | relayer-v2/actor/src/wallet/nonce-coordinator.ts:30-44 | Every nonce offered plus the replies lost since the stream caught up (at most one) is the number of nonces taken, and the successful nonces since the seed are consecutive up to it |
| NonceCoordinator.CachedNonceIsLedger | relayer-v2/actor/src/wallet/nonce-coordinator.ts:30-44 | With no lost reply the cached nonce is absent or the number of nonces taken |
| NonceCoordinator.LostReplyBlocksTheStream | relayer-v2/actor/src/wallet/nonce-coordinator.ts:25-42 | After an accepted submission reported as failed nothing that lands on that cache takes a new nonce, and only a replacement of the lost transaction is reported as a success |
| NonceCoordinator.StaysBlocked | relayer-v2/actor/src/wallet/nonce-coordinator.ts:30-50 | However a stream with a lost reply goes on, until it reads a seed or a replacement of the lost transaction resolves every submission is reported as failed, none takes a new nonce and the count of nonces taken stays put |
| NonceCoordinator.CatchingUpUnblocks | relayer-v2/actor/src/wallet/nonce-coordinator.ts:34-38 | After either of these the cached nonce is the number of nonces taken |
| NonceCoordinator.LostReplyHappens | relayer-v2/actor/src/wallet/nonce-coordinator.ts:30-44 | The state is reached by one submission that the network takes and the caller is told has failed |
| NonceCoordinator.IdleResetReseeds | relayer-v2/actor/src/wallet/nonce-coordinator.ts:46-50 | After a reset between submissions the next one reads a seed first, whatever happens until it starts |
| NonceCoordinator.FlightResetSurvivesFailure | relayer-v2/actor/src/wallet/nonce-coordinator.ts:34-50 | A reset during a broadcast, with any requests after it, is still in force when that broadcast settles exactly if it failed |
| NonceCoordinator.SeedingResetIsLost | relayer-v2/actor/src/wallet/nonce-coordinator.ts:34-50 | A reset during the seed read is undone by the seed, also when the broadcast after it fails |
| NonceCoordinator.ChainStream.OnSettled | relayer-v2/actor/src/wallet/nonce-coordinator.ts:36-42 | The nonce advances only when the broadcast resolved; a rejection reuses it |
| SharedStream.LostReplyStallsJobs | relayer-v2/actor/src/wallet/nonce-coordinator.ts:30-44 | When the job broadcasts to a chain are the landings on its stream, every one of them after a lost reply is reported as failed and none is taken, until the stream catches up |
| SharedStream.LostReplyStallsRequests | relayer-v2/actor/src/wallet/nonce-coordinator.ts:30-44 | And every relay request for that chain that settles in that time is told that its submission failed |
| PrivacyRelay.LocksHaveOneHolder | relayer-v2/actor/src/wallet/wallet-manager.ts:63-72 | Under every interleaving each locked chain has exactly one live request past its checks and each such request holds its chain's lock |
| PrivacyRelay.OnlyTheHolderReleases | relayer-v2/actor/src/relay/privacy-relay.ts:139-189 | A chain's lock is given up only by the exit of the request that holds it |
| PrivacyRelay.DuplicatesAreFarApart | relayer-v2/actor/src/relay/privacy-relay.ts:158-184 | Of two successful broadcasts of the same calldata, up to case, to the same target and chain, the later was looked up more than ten minutes after the earlier was recorded, in every interleaving |
| PrivacyRelay.OnlyDuplicatesAreRefused | relayer-v2/actor/src/relay/privacy-relay.ts:154-167 | A request with its gas estimate goes to the wallet exactly when the same call has not been broadcast with success in the last ten minutes |
| PrivacyRelay.NoUnpaidBroadcast | relayer-v2/actor/src/relay/privacy-relay.ts:82-190 | A request reaches the wallet only if when it arrived its quote was one the calculator had issued for its chain, at prices an earlier regeneration of that chain had read, and within its window, and its own calldata has an allowlisted target and one of the six selectors and pays at least the price of 500000 gas (transact, atomicCrossChainUnshield) or 2000000 gas (lendAndShield, redeemAndShield), or after a shield fee below 10000 bps that of 300000 or 400000 gas (gaslessShield, gaslessCrossChainShield) |
| PrivacyRelay.RelayProcess.OnRequest | relayer-v2/actor/src/relay/privacy-relay.ts:82-142 | Resolves the quote with the calculator and ends with the first check that fails, else waits for its decryption or takes its chain's lock; a refused one leaves locks and other requests alone |
| PrivacyRelay.RelayProcess.OnFeeChecked | relayer-v2/actor/src/relay/privacy-relay.ts:127-142 | A decrypted fee is compared with the schedule the request arrived with; paid, it takes its chain's lock if that is free |
| PrivacyRelay.RelayProcess.RefreshQuotes | relayer-v2/actor/src/relay/fee-calculator.ts:114-144 | A regeneration between any steps of the requests installs its schedule, or nothing at a shield fee of 10000 bps, and is a step of the run |
| PrivacyRelay.RelayProcess.OnGasEstimate | relayer-v2/actor/src/relay/privacy-relay.ts:144-175 | Submits with a fifth more gas exactly when the estimate succeeded and no duplicate is cached, else releases the lock with the right error |
| PrivacyRelay.RelayProcess.OnBroadcast | relayer-v2/actor/src/relay/privacy-relay.ts:169-189 | Records a success, releases the lock on every exit |
| DedupCache.DedupCache.LookupPrior | relayer-v2/actor/src/relay/dedup-cache.ts:24-33 | The prior hash exactly while it is not older than the TTL; an aged entry is dropped |
| DedupCache.DedupCache.Sweep | relayer-v2/actor/src/relay/dedup-cache.ts:40-46 | Drops exactly the entries older than the TTL |
| FeeVerifiers.ChecksAreExact | relayer-v2/actor/src/relay/privacy-relay.ts:82-137 | The ordered checks approve exactly the requests that show everything, for the amount their own calldata pays |
| FeeVerifiers.FirstNoteValueIsFirst | relayer-v2/actor/src/relay/gasless-fee-verifier.ts:124-143 | The first note with the relayer's key decides, whatever larger ones follow |
| FeeVerifiers.GaslessVerified | relayer-v2/actor/src/relay/gasless-fee-verifier.ts:75-160 | Accepted exactly for the configured wrapper, a derivable key and a fee note to that key of at least the advertised fee |
| FeeVerifiers.BroadcasterVerified | relayer-v2/actor/src/relay/broadcaster-fee-verifier.ts:30-91 | Accepted exactly when the transact call the request carries, its own or the one embedded in a wrapper call, decrypts and holds at least the advertised fee in USDC |
| FeeVerifiers.FeeVerified | relayer-v2/actor/src/relay/redeem-fee-verifier.ts:54-112 | Each selector's verifier accepts exactly when the fee note or the decrypted USDC of this calldata reaches the advertised fee |
| FeeVerifiers.NoteTokenIsNotRead | relayer-v2/actor/src/relay/gasless-fee-verifier.ts:135-142 | Hub notes that differ only in their tokens get the same verdict |
| FeeVerifiers.LowerKeysPaid | relayer-v2/actor/src/relay/broadcaster-fee-verifier.ts:77-82 | What counts as paid is the last amount listed under the token up to case, or nothing when there is none |
| FeeVerifiers.LowerKeysIsLast | relayer-v2/actor/src/relay/broadcaster-fee-verifier.ts:77-82 | Under keys that differ only in case the last amount counts |
| FeeVerifiers.NormalisedAmounts | relayer-v2/actor/src/relay/broadcaster-fee-verifier.ts:78-81 | The loop builds exactly that map |
| FeeVerifiers.AllowedSelectorsHaveFees | relayer-v2/actor/src/relay/selectors.ts:44-92 | Exactly six selectors are allowed, and exactly they have an advertised fee |
| FeeVerifiers.WhatSelectorsOwe | relayer-v2/actor/src/relay/selectors.ts:71-92 | The advertised fee is the price of 500000 gas for transact and atomicCrossChainUnshield, of 2000000 for lendAndShield and redeemAndShield, and grossed up that of 300000 for gaslessShield and 400000 for gaslessCrossChainShield |
| FeeVerifiers.ApprovedPaysItsWay | relayer-v2/actor/src/relay/privacy-relay.ts:109-137 | What an approved request pays covers the gas of the operation its first four bytes name, for the gasless ones after the shield fee |
| FeeVerifiers.OpeningFailsExactly | relayer-v2/actor/src/relay/privacy-relay.ts:69-107 | The error of a request refused before its fee is looked at names the first check that fails, in order |
| FeeVerifiers.FeeFailsExactly | relayer-v2/actor/src/relay/privacy-relay.ts:109-137 | The error of a refused fee: no wrapper, another target than the wrapper, nothing to read the fee from, or, for a fee that can be read, not enough |
| FeeVerifiers.GaslessCoversGas | relayer-v2/actor/src/relay/fee-calculator.ts:56-72 | An approved gasless request leaves the relayer, after the shield fee on its note, at least the tier's gas reimbursement as a number of the note's own token |
| FeeArithmetic.FeeIsMonotone | relayer-v2/actor/src/relay/fee-calculator.ts:42-54 | The fee is monotone in gas, gas price, ETH price and margin and never below 10000 |
| FeeArithmetic.RoundingLoss | relayer-v2/actor/src/relay/fee-calculator.ts:48-52 | Before the floor the fee is below the exact rational by less than 1 + (10000 + margin)/10000 and never above it |
| FeeArithmetic.FeeTracksGas | relayer-v2/actor/src/relay/fee-calculator.ts:42-54 | The whole fee is a cent at least, above a cent never more than gas * gasPrice * price / 1e18 with the margin, and less than 2 + margin / 10000 units below it |
| FeeArithmetic.GrossUpIsLeast | relayer-v2/actor/src/relay/fee-calculator.ts:66-72 | The gross-up is the least g with g * (10000 - bps) >= net * 10000 |
| FeeArithmetic.GrossUpKeepsWhole | relayer-v2/actor/src/relay/fee-calculator.ts:56-72 | After the floored shield fee the net is met or exceeded by one unit |
| FeeArithmetic.GrossUpWorksExactly | relayer-v2/actor/src/relay/fee-calculator.ts:66-72 | The gross-up covers a positive net if and only if the shield fee is below 10000 bps |
| FeeCalculator.CacheIdInjective | relayer-v2/actor/src/relay/fee-calculator.ts:134 | Ids of different quotes differ and an id names its chain |
| FeeCalculator.ResolvesAmongLastTwo | relayer-v2/actor/src/relay/fee-calculator.ts:140-163 | However regenerations overlap, a live quote resolves, to itself, if and only if fewer than two schedules were installed for its chain after it |
| FeeCalculator.OverlapDropsLiveQuote | relayer-v2/actor/src/relay/fee-calculator.ts:114-144 | Three overlapping regenerations of a chain without a schedule leave the first of their quotes live and, once all three are done, resolving at no time |
| FeeCalculator.ResolvesExactlyLiveQuotes | relayer-v2/actor/src/relay/fee-calculator.ts:146-163 | Without overlap and with a buffer of at most 10000 bps, a quote resolves at t exactly when it was issued on that chain under that id and t is before its expiry plus buffer |
| FeeCalculator.QuotesStayOnTheirChain | relayer-v2/actor/src/relay/fee-calculator.ts:146-163 | An id issued on one chain resolves on no other |
| FeeCalculator.ResolvedWasIssued | relayer-v2/actor/src/relay/fee-calculator.ts:152-163 | Whatever resolves was issued for the chain under that id and is within its window, for every buffer |
| FeeCalculator.RegenerationRotates | relayer-v2/actor/src/relay/fee-calculator.ts:140-163 | Through a regeneration of its chain the latest quote resolves exactly as it did, at any time, and every older one no longer does |
| FeeCalculator.BufferBoundIsExact | relayer-v2/actor/src/relay/fee-calculator.ts:140-163 | Without overlapping regenerations, one-deep retention drops no live quote if and only if the buffer is at most 10000 bps |
| FeeCalculator.LongBufferDropsLiveQuote | relayer-v2/actor/src/relay/fee-calculator.ts:140-163 | For every longer buffer, three regenerations that rotate a live quote out |
| FeeCalculator.FeeCalculator.Regenerate | relayer-v2/actor/src/relay/fee-calculator.ts:114-144 | A regeneration, however many of the same chain overlap with it, appends one issue to its chain's history and keeps the last two in the slot; at a shield fee of 10000 bps it throws and installs nothing |
| FeeCalculator.FeeCalculator.ResolveQuote | relayer-v2/actor/src/relay/fee-calculator.ts:152-163 | Returns only live quotes issued on the chain and, without overlap and up to a buffer of 10000 bps, finds every one of them |
| FeeCalculator.LeastFee | relayer-v2/actor/src/relay/fee-calculator.ts:166-175 | The advertised fee is one of the schedule's fees under the keys and none is smaller |
| FeeCalculator.AdvertisedFee | relayer-v2/actor/src/relay/fee-calculator.ts:167-175 | The loop computes that minimum |
| RateLimiter.TokensStayInRange | relayer-v2/actor/src/http/rate-limiter.ts:18-39 | In every run tokens stay between 0 and the capacity |
| RateLimiter.WindowBound | relayer-v2/actor/src/http/rate-limiter.ts:18-47 | Requests let through for one key between operations T ms apart number at most capacity + T * capacity / 60000 |
| RateLimiter.AllowedExactly | relayer-v2/actor/src/http/rate-limiter.ts:18-39 | In every run a request is let through if and only if every window that ends with it, T ms long, had at most capacity - 1 + T * capacity / 60000 requests of this client let through |
| RateLimiter.PatientClientIsServed | relayer-v2/actor/src/http/rate-limiter.ts:18-39 | A client that keeps 60000 / capacity ms between its requests is never refused, whatever other clients do |
| RateLimiter.SweepsAreInvisible | relayer-v2/actor/src/http/rate-limiter.ts:41-47 | Runs that differ only in their sweeps make the same decisions |
| RateLimiter.TokenBucketLimiter.Allow | relayer-v2/actor/src/http/rate-limiter.ts:18-39 | Refills the bucket for the time since its last use, takes a token when a whole one is there and says whether it did |
| RateLimiter.TokenBucketLimiter.Sweep | relayer-v2/actor/src/http/rate-limiter.ts:41-47 | Drops exactly the buckets idle for more than ten minutes |
| QuickSyncDecode.FormattedValue | relayer-v2/watcher/src/api/lib/quick-sync-decode.ts:45-54 | A formatted value is lower-case hex that reads back as its number, of its width, and longer only without a leading zero |
| QuickSyncDecode.DecodeRows | relayer-v2/watcher/src/api/lib/quick-sync-decode.ts:215-223 | The push loop of the decoders computes the row-by-row decode, failing with the first row that throws |
| QuickSyncDecode.DecodedJoin | relayer-v2/watcher/src/api/lib/quick-sync-decode.ts:215-223 | Decoding two lists one after the other is decoding their concatenation, failures included |
| QuickSyncNative.ShieldLeavesAgree | relayer-v2/watcher/src/api/lib/quick-sync-native.ts:125-162 | A shield leaf has the same place, transaction, note hash, key, token and amounts in both formats, or fails in both |
| QuickSyncNative.TransactLeavesAgree | relayer-v2/watcher/src/api/lib/quick-sync-native.ts:188-203 | A transact leaf has the same place, hash and ciphertext in both formats, the native one unsplit |
| QuickSyncNative.FormatsAgree | relayer-v2/watcher/src/api/lib/quick-sync-native.ts:107-206 | On any ABI-typed rows the formats fail together, else native shields and transacts are the engine events split by kind, in order, leaf for leaf |
| QuickSyncNative.SpendsAgree | relayer-v2/watcher/src/api/lib/quick-sync-native.ts:208-253 | Nullifiers and unshields are the same facts, row for row, in both formats |
| QuickSyncApi.BatchStandsForRows | relayer-v2/watcher/src/api/lib/quick-sync-decode.ts:206-250 | Over all rows: the events of a batch are the Shield and Transact rows in order, each with its row's tree, position, transaction and block, leaf i at position + i of that tree in that transaction and block, also without leaves; withdrawals are the Unshield rows in order; there is no batch exactly for a Shield of another token than an ERC20 or without a ciphertext, or a Transact without a hash |
| QuickSyncApi.V1CoversItsClaim | relayer-v2/watcher/src/api/index.ts:180-229 | A page is the decode of the blocks it claims, up to the end of the window or the indexing head, kept for good exactly when that end lies behind the confirmation depth, and an error exactly when a log of them cannot be decoded |
| QuickSyncApi.FollowPages | relayer-v2/watcher/src/api/index.ts:186-189 | Following servedThroughBlock + 1 until a page says it was served through indexedThrough terminates while the watcher keeps indexing, also on copies kept by caches; the pages add up to one decode of all rows in range, every page but the last is a full window, and the client ends at the head unless a cached copy of a chain without confirmations stopped it |
| QuickSyncApi.CachedPageEndsPaging | relayer-v2/watcher/src/api/lib/api-helpers.ts:44-61 | A page cached for good tells its clients to stop if and only if the chain has no confirmations and the page reaches the indexing head |
| QuickSyncApi.EndsBelowHead | relayer-v2/watcher/src/api/index.ts:186-228 | Without confirmations, a client whose first request gets a copy kept while the head lay within that window is told to stop there, below what has been indexed since |
| QuickSyncApi.OnlyHeadAges | relayer-v2/watcher/src/api/lib/api-helpers.ts:44-61 | With confirmations, or for a full window, indexedThrough is all that ever changes in a page cached for good |
| QuickSyncApi.CachedContentIsFinal | relayer-v2/watcher/src/api/lib/api-helpers.ts:44-61 | The lists and servedThroughBlock of a page cached for good are final if and only if the chain has confirmations or the window is full |
| QuickSyncApi.CachedNativeIsFinal | relayer-v2/watcher/src/api/index.ts:277-300 | A native reply cached for good is final if and only if the chain has confirmations or the reply was not cut at the indexing head |
| QuickSyncApi.V2CoversItsClaim | relayer-v2/watcher/src/api/index.ts:262-282 | A reply gives exactly the logs of the blocks it claims, up to the end of the caller's range or the indexing head, and is kept for good exactly when that end lies behind the confirmation depth; the claim is true except from block 0 with nothing indexed |
| QuickSyncApi.EndpointsAgree | relayer-v2/watcher/src/api/index.ts:205-301 | What all pages of one endpoint add up to is, in all four lists, one answer of the other for the same range, or both fail |

## Left out

- Protocol.RunInv: rows imported from the first relayer version are not initial states; they may lack bytes and are covered only by WriteDescends.
- RunSafety.BroadcastsAreSafe: equality outside the slots is on lower-cased hex digits, which is equality of the bytes.
- RunLedger.BroadcastsConserved: one actor instance; exactly-once delivery would need the destination contract's replay protection, which is not in the repository.
- StateMachine.CctpStateMachine.TickAwaitingAttestation: the polls of a tick run one after the other in any order; polls that go on after a rejected tick are covered by the protocol's events, not by the method.
- StateMachine.CctpStateMachine.CheckStuck: the nonce reset that goes with a dropped transaction is not wired to the nonce stream; what a reset does there is proved about any run of the stream.
- FallbackScanner.ChainScanner.TickChain: a cursor started without watcher progress stands behind the highest claimed block or the deploy block, so NoGap needs the base not to exceed the last indexed block.
- JobTick.NoGap: assumes that the watcher's last indexed block does not fall behind the block the activation started from.
- WorkDiscovery.ClaimMessage: messages are rows whose domains were decoded from their own bytes, as both producers make them.
- LogScan.GetLogsChunked: a chunk size below 1 (the configuration demands at least 10) and the address and topic filter.
- FeeCalculator.FeeCalculator.Regenerate: the gas and price reads are its inputs; a run may end a regeneration that no request started, which adds runs and takes none away.
- NonceCoordinator.CachedNonceIsLedger: this wallet is the only sender and a transaction once taken keeps its nonce taken; a transaction put in the place of one already taken is modelled.
- SharedStream.LostReplyStallsJobs: that the broadcasts of a run are the landings on the stream, in order, is a hypothesis; the relay and the job ticks take the outcome of a broadcast as an input and are not merged with the stream into one state machine.
- PrivacyRelay.RelayProcess.OnBroadcast: the wallet's answer is an input.
- FeeVerifiers.BroadcasterVerified: whether a call decrypts, and to what, depends on the call alone; a decryption that fails only for the moment is not told apart from one that always fails.
- Classify.DecodersAgree: hook router addresses are taken to be well formed; padding a malformed one throws in the source.
- QuickSyncDecode.DecodeRows: rows carry their ABI-decoded event; a stored log that does not decode at all, which fails the request, is not a row of the model.
- QuickSyncApi.FollowPages: blocks already indexed are not reorganised while a client pages; the empty page past the head is modelled but not part of the loop; of the copies with a five-second life none is followed.
- Lower-casing is ASCII only; wire text of errors is kept only where the job row stores it.
- Postgres text, pools and migrations: the repository is modelled by its in-memory semantics, which the Postgres class mirrors.
- HTTP routing, parameter parsing, timeouts, metrics, logging, health and the price feed.
- keccak, Poseidon, ABI and note decryption: symbolic or arbitrary functions.
- Idempotency storage, block-based cursors of the list endpoints, configuration and manifest loading.
