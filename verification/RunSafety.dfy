/** What every run of the job protocol keeps: identity, the coded edges, final states and safe bytes. */
module RunSafety {
  import opened Wrappers
  import opened Hex
  import opened Classify
  import opened IrisClient
  import opened Jobs
  import opened Protocol

  /** The state after the first i events. */
  ghost function At(cfg: Config, trace: seq<Event>, i: nat): Sys
    requires Run(cfg, trace).Some? && i <= |trace|
  {
    RunPrefix(cfg, trace, i);
    Run(cfg, trace[..i]).value
  }

  lemma AtStep(cfg: Config, trace: seq<Event>, i: nat)
    requires Run(cfg, trace).Some? && i < |trace|
    ensures Step(cfg, At(cfg, trace, i), trace[i]) == Some(At(cfg, trace, i + 1))
  {
    RunPrefix(cfg, trace, i + 1);
    assert trace[..i + 1][..i] == trace[..i];
  }

  lemma AtInv(cfg: Config, trace: seq<Event>, i: nat)
    requires Run(cfg, trace).Some? && i <= |trace|
    ensures Inv(cfg, At(cfg, trace, i))
  {
    RunPrefix(cfg, trace, i);
    RunInv(cfg, trace[..i]);
  }

  lemma FieldsOf(cfg: Config, s: Sys, k: string)
    requires Inv(cfg, s) && k in s.jobs
    ensures s.jobs[k].dedupKey == k && s.jobs[k].retryAttempts <= MAX_RELAY_RETRIES && StateFields(s.jobs[k])
  {
    assert RowInv(cfg, k, s.jobs[k]);
  }

  /** The state changes a claimed row can make. Attested rows never go back to waiting for Iris. */
  predicate Edge(a: JobState, b: JobState) {
    match a
    case Detected => b == AwaitingAttestation || b == Attested
    case AwaitingAttestation => b == Attested || b == DeadLetter
    case Attested => b == Submitted || b == AlreadyDelivered || b == DeadLetter
    case Submitted => b == Delivered || b == Attested
    case _ => false
  }

  lemma NextRowEdge(cfg: Config, j: Job, e: Event, pending: Pending, now: int)
    requires StateFields(j) && IsWrite(e) && NextRow(cfg, j, e, pending, now).Some?
    ensures var r := NextRow(cfg, j, e, pending, now).value;
            !Terminal(j.state) && (r.state == j.state || Edge(j.state, r.state))
  {
  }

  /** One row across one step. */
  ghost predicate RowMoves(a: Job, b: Job) {
    && SameIdentity(a, b)
    && (a.state == b.state || Edge(a.state, b.state))
    && (Terminal(a.state) ==> a == b)
  }

  lemma NextRowMoves(cfg: Config, j: Job, e: Event, pending: Pending, now: int)
    requires StateFields(j) && j.retryAttempts <= MAX_RELAY_RETRIES && IsWrite(e)
    requires NextRow(cfg, j, e, pending, now).Some?
    ensures RowMoves(j, NextRow(cfg, j, e, pending, now).value)
  {
    NextRowEdge(cfg, j, e, pending, now);
    WrittenFields(cfg, j, e, pending, now);
  }

  /** Each single event of a run moves a row along a coded edge or leaves its state alone. */
  lemma OnlyCodedEdges(cfg: Config, trace: seq<Event>, i: nat, k: string)
    requires Run(cfg, trace).Some? && i < |trace| && k in At(cfg, trace, i).jobs
    ensures k in At(cfg, trace, i + 1).jobs
    ensures RowMoves(At(cfg, trace, i).jobs[k], At(cfg, trace, i + 1).jobs[k])
  {
    var s, e := At(cfg, trace, i), trace[i];
    AtStep(cfg, trace, i);
    StepFrame(cfg, s, e);
    if IsWrite(e) && e.key == k {
      assert StateFields(s.jobs[k]) && s.jobs[k].retryAttempts <= MAX_RELAY_RETRIES by {
        AtInv(cfg, trace, i);
        FieldsOf(cfg, s, k);
      }
      NextRowMoves(cfg, s.jobs[k], e, s.pending, s.now);
    }
  }

  /** The step back to waiting for Iris is coded, but no claimed row can ever take it. */
  lemma ClaimedRowsNeverRepoll(cfg: Config, trace: seq<Event>, i: nat)
    requires Run(cfg, trace).Some? && i < |trace|
    ensures !trace[i].Repoll?
  {
    var s, e := At(cfg, trace, i), trace[i];
    AtStep(cfg, trace, i);
    forall k | k in s.jobs && s.jobs[k].state == Attested
      ensures BytesReady(s.jobs[k])
    {
      AtInv(cfg, trace, i);
      FieldsOf(cfg, s, k);
    }
  }

  /**
   * Between any two moments of any run a row is still there, is the same job, and if it was final it is
   * bit for bit the same.
   */
  lemma {:induction false} RowsPersist(cfg: Config, trace: seq<Event>, i: nat, j: nat, k: string)
    requires Run(cfg, trace).Some? && i <= j <= |trace| && k in At(cfg, trace, i).jobs
    ensures k in At(cfg, trace, j).jobs
    ensures SameIdentity(At(cfg, trace, i).jobs[k], At(cfg, trace, j).jobs[k])
    ensures Terminal(At(cfg, trace, i).jobs[k].state) ==> At(cfg, trace, i).jobs[k] == At(cfg, trace, j).jobs[k]
  {
    if i < j {
      RowsPersist(cfg, trace, i, j - 1, k);
      OnlyCodedEdges(cfg, trace, j - 1, k);
    }
  }

  /** The write that records an effect. */
  function RecordOf(s: Sys): Event
    requires !s.pending.Idle?
  {
    match s.pending
    case AcceptedTx(k, _, _) => MarkSubmitted(k, s.now)
    case ReplaySeen(k) => MarkReplayed(k)
    case FailureSeen(k) => CountFailure(k)
  }

  /** The guarded write that records an effect never misses: its row is still attested. */
  lemma PendingWriteLands(cfg: Config, trace: seq<Event>)
    requires Run(cfg, trace).Some? && !Run(cfg, trace).value.pending.Idle?
    ensures Step(cfg, Run(cfg, trace).value, RecordOf(Run(cfg, trace).value)).Some?
  {
    var s := Run(cfg, trace).value;
    assert PendingInv(s) by { RunInv(cfg, trace); }
  }

  // ----- where a row comes from -----

  /** The claim at c inserted row k: it is the first event that mentions the key. */
  ghost predicate InsertedBy(cfg: Config, trace: seq<Event>, c: int, k: string)
    requires Run(cfg, trace).Some?
  {
    && 0 <= c < |trace| && trace[c].Claim? && trace[c].msg.id == k && FaithfulRow(trace[c].msg)
    && k !in At(cfg, trace, c).jobs
  }

  /** Row j of key k is the job the claim at c made of its message, as far as identity goes. */
  ghost predicate ComesFrom(cfg: Config, trace: seq<Event>, c: int, k: string, j: Job)
    requires Run(cfg, trace).Some?
  {
    && InsertedBy(cfg, trace, c, k)
    && SameIdentity(NewJob(trace[c].msg, Detected, At(cfg, trace, c).now), j)
  }

  lemma ClaimedIdentity(m: IndexedMessageSent, known: set<string>, hookRouter: Option<string>, received: bool, now: int)
    ensures SameIdentity(NewJob(m, Detected, now), ClaimedJob(m, known, hookRouter, received, now))
  {
  }

  lemma {:induction false} RowsAreClaimed(cfg: Config, trace: seq<Event>, n: nat, k: string)
    requires Run(cfg, trace).Some? && n <= |trace| && k in At(cfg, trace, n).jobs
    ensures exists c :: 0 <= c < n && ComesFrom(cfg, trace, c, k, At(cfg, trace, n).jobs[k])
  {
    assert n > 0;
    if k in At(cfg, trace, n - 1).jobs {
      RowsAreClaimed(cfg, trace, n - 1, k);
      var c :| 0 <= c < n - 1 && ComesFrom(cfg, trace, c, k, At(cfg, trace, n - 1).jobs[k]);
      OnlyCodedEdges(cfg, trace, n - 1, k);
      assert ComesFrom(cfg, trace, c, k, At(cfg, trace, n).jobs[k]);
    } else {
      NewRowsAreClaims(cfg, trace, n - 1, k);
    }
  }

  lemma NewRowsAreClaims(cfg: Config, trace: seq<Event>, c: nat, k: string)
    requires Run(cfg, trace).Some? && c < |trace| && k !in At(cfg, trace, c).jobs && k in At(cfg, trace, c + 1).jobs
    ensures ComesFrom(cfg, trace, c, k, At(cfg, trace, c + 1).jobs[k])
  {
    AtStep(cfg, trace, c);
    var s, e := At(cfg, trace, c), trace[c];
    StepFrame(cfg, s, e);
    ClaimedIdentity(e.msg, cfg.knownRecipients, HookRouter(cfg, e.msg.destinationDomain), e.received, s.now);
  }

  /** However the two producers race on a message, exactly one claim inserts its row. */
  lemma ClaimedOnce(cfg: Config, trace: seq<Event>, c: int, d: int, k: string)
    requires Run(cfg, trace).Some? && InsertedBy(cfg, trace, c, k) && InsertedBy(cfg, trace, d, k)
    ensures c == d
  {
    var a, b := Min(c, d), Max(c, d);
    if a < b {
      AtStep(cfg, trace, a);
      StepFrame(cfg, At(cfg, trace, a), trace[a]);
      RowsPersist(cfg, trace, a + 1, b, k);
    }
  }

  // ----- content safety -----

  lemma RelayableIsLong(bytes: string, known: set<string>, hookRouter: Option<string>)
    requires IsHexBytes(bytes) && ClassifyMessageForRelay(bytes, known, hookRouter).Relay?
    ensures |bytes| - 2 >= 752 && DecodeMessageHeader(bytes).Some? && DecodeCctpHeader(bytes).Some?
    ensures DecodeMessageHeader(bytes).value.destinationDomain == DecodeCctpHeader(bytes).value.destinationDomain
    ensures DecodeMessageHeader(bytes).value.destinationDomain == Uint32At(Strip0x(bytes), 8)
  {
    DecodersAgree(bytes);
  }

  lemma SafeToBroadcast(cfg: Config, j: Job)
    requires RowInv(cfg, j.dedupKey, j) && j.state == Attested
    ensures SameOutsideSlots(j.messageBytes, j.relayMessage.value)
    ensures ClassifyMessageForRelay(j.relayMessage.value, cfg.knownRecipients,
                                    HookRouter(cfg, j.destinationDomain)).Relay?
    ensures DecodeMessageHeader(j.relayMessage.value).Some?
    ensures DecodeMessageHeader(j.relayMessage.value).value.destinationDomain == j.destinationDomain
  {
    var bytes, sent, router := j.messageBytes, j.relayMessage.value, HookRouter(cfg, j.destinationDomain);
    MatchIsPointwise(bytes, sent);
    MatchPreservesMeaning(bytes, sent, cfg.knownRecipients, router);
    RelayableIsLong(bytes, cfg.knownRecipients, router);
    RelayableIsLong(sent, cfg.knownRecipients, router);
  }

  /** Behind 0x, digits 16 to 24 of the message are the domain and digits 368 to 432 a recipient that we know. */
  predicate Addressed(message: string, domain: nat, knownRecipients: set<string>) {
    && IsHexBytes(message) && |message| >= 754
    && HexVal(message[18..26]) == domain
    && "0x" + Lower(message[370..434]) in knownRecipients
  }

  lemma RelayableIsAddressed(message: string, domain: nat, known: set<string>, hookRouter: Option<string>)
    requires IsHexBytes(message) && RelayableBytes(message, known, hookRouter)
    requires DecodeMessageHeader(message).Some? && DecodeMessageHeader(message).value.destinationDomain == domain
    ensures Addressed(message, domain, known)
  {
    var hex := Strip0x(message);
    assert hex == message[2..];
    assert hex[16..24] == message[18..26] && hex[368..432] == message[370..434];
    assert Slice(hex, 16, 24) == hex[16..24];
  }

  /**
   * Every broadcast of every run carries the bytes of the message claimed under its key, except where
   * Circle fills them; goes to the destination domain written in those bytes; and is still relayable: it is a burn
   * message that mints to a recipient we know and that we may deliver.
   */
  lemma BroadcastsAreSafe(cfg: Config, trace: seq<Event>, i: nat)
    requires Run(cfg, trace).Some? && i < |trace| && trace[i].Broadcast?
    ensures exists c :: 0 <= c < i && InsertedBy(cfg, trace, c, trace[i].key)
              && SameOutsideSlots(trace[c].msg.messageBytes, trace[i].message)
              && trace[i].domain == trace[c].msg.destinationDomain
    ensures Addressed(trace[i].message, trace[i].domain, cfg.knownRecipients)
    ensures var routers, domain := cfg.hookRouterByDomain, trace[i].domain;
            RelayableBytes(trace[i].message, cfg.knownRecipients, if domain in routers then routers[domain] else None)
  {
    AtStep(cfg, trace, i);
    var k := trace[i].key;
    var j := At(cfg, trace, i).jobs[k];
    assert RowInv(cfg, k, j) by { AtInv(cfg, trace, i); }
    SafeToBroadcast(cfg, j);
    ClassifiedExactly(j.relayMessage.value, cfg.knownRecipients, HookRouter(cfg, j.destinationDomain));
    RelayableIsAddressed(j.relayMessage.value, j.destinationDomain, cfg.knownRecipients, HookRouter(cfg, j.destinationDomain));
    RowsAreClaimed(cfg, trace, i, k);
  }
}
