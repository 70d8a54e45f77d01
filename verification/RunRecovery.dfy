/** No claimed row is ever wedged: from every reachable state each unfinished job can still finish. */
module RunRecovery {
  import opened Wrappers
  import opened Hex
  import opened Classify
  import opened IrisClient
  import opened Jobs
  import opened Protocol
  import opened RunSafety

  /** Running more events from a reached state. */
  function RunFrom(cfg: Config, s: Sys, more: seq<Event>): Option<Sys>
    decreases |more|
  {
    if more == [] then Some(s)
    else
      var t := Step(cfg, s, more[0]);
      if t.None? then None else RunFrom(cfg, t.value, more[1..])
  }

  lemma {:induction false} RunFromExtends(cfg: Config, trace: seq<Event>, more: seq<Event>)
    requires Run(cfg, trace).Some? && RunFrom(cfg, Run(cfg, trace).value, more).Some?
    ensures Run(cfg, trace + more) == RunFrom(cfg, Run(cfg, trace).value, more)
    decreases |more|
  {
    if more == [] {
      assert trace + more == trace;
    } else {
      RunExtend(cfg, trace, more[0]);
      RunFromExtends(cfg, trace + [more[0]], more[1..]);
      assert trace + [more[0]] + more[1..] == trace + more;
    }
  }

  /** Some continuation brings the job to the given state. */
  ghost predicate CanReach(cfg: Config, s: Sys, k: string, goal: JobState) {
    exists more ::
      var end := RunFrom(cfg, s, more);
      end.Some? && k in end.value.jobs && end.value.jobs[k].state == goal
  }

  lemma ReachedNow(cfg: Config, s: Sys, k: string)
    requires k in s.jobs
    ensures CanReach(cfg, s, k, s.jobs[k].state)
  {
    assert RunFrom(cfg, s, []) == Some(s);
  }

  lemma ReachVia(cfg: Config, s: Sys, e: Event, k: string, goal: JobState)
    requires Step(cfg, s, e).Some? && CanReach(cfg, Step(cfg, s, e).value, k, goal)
    ensures CanReach(cfg, s, k, goal)
  {
    var t := Step(cfg, s, e).value;
    var more :| var end := RunFrom(cfg, t, more);
                end.Some? && k in end.value.jobs && end.value.jobs[k].state == goal;
    assert ([e] + more)[1..] == more;
    assert RunFrom(cfg, s, [e] + more) == RunFrom(cfg, t, more);
  }

  lemma SubmittedDelivers(cfg: Config, s: Sys, k: string)
    requires s.pending.Idle? && k in s.jobs && s.jobs[k].state == Submitted && OnChain(s.jobs[k])
    ensures CanReach(cfg, s, k, Delivered)
  {
    var e := MarkDelivered(k, s.jobs[k].submittedTxHash.value, Receipt(1, 0), s.now);
    ReachedNow(cfg, Step(cfg, s, e).value, k);
    ReachVia(cfg, s, e, k, Delivered);
  }

  lemma DueDelivers(cfg: Config, s: Sys, k: string)
    requires s.pending.Idle? && k in s.jobs && s.jobs[k].state == Attested
    requires BytesReady(s.jobs[k]) && DueAt(s.jobs[k], s.now)
    ensures CanReach(cfg, s, k, Delivered)
  {
    var j := s.jobs[k];
    var send := Broadcast(k, s.now, j.destinationDomain, j.relayMessage.value, j.attestation.value, Accepted("0x"));
    var sent := Step(cfg, s, send).value;
    var mark := MarkSubmitted(k, s.now);
    SubmittedDelivers(cfg, Step(cfg, sent, mark).value, k);
    ReachVia(cfg, sent, mark, k, Delivered);
    ReachVia(cfg, s, send, k, Delivered);
  }

  lemma AttestedDelivers(cfg: Config, s: Sys, k: string)
    requires s.pending.Idle? && k in s.jobs && s.jobs[k].state == Attested && BytesReady(s.jobs[k])
    ensures CanReach(cfg, s, k, Delivered)
  {
    var j := s.jobs[k];
    var wait := Advance(if j.nextRetryAt.Some? then Max(s.now, j.nextRetryAt.value) else s.now);
    DueDelivers(cfg, Step(cfg, s, wait).value, k);
    ReachVia(cfg, s, wait, k, Delivered);
  }

  /** A complete reply that carries the observed bytes themselves. */
  function OwnReply(bytes: string): HttpReply {
    Reply(200, Messages([IrisEntry(Some("0x" + Zeros(130)), Some(bytes), Some("complete"))]))
  }

  /** For a relayable message such a reply is always accepted, so no waiting row is beyond help. */
  lemma OwnReplyAccepted(bytes: string, known: set<string>, hookRouter: Option<string>)
    requires IsHexBytes(bytes) && ClassifyMessageForRelay(bytes, known, hookRouter).Relay?
    ensures Fetch(bytes, OwnReply(bytes)).Complete?
  {
    RelayableIsLong(bytes, known, hookRouter);
    MatchIsEquivalence(bytes, bytes, "");
    assert ("0x" + Zeros(130))[2..] == Zeros(130);
  }

  predicate PastAge(cfg: Config, s: Sys, j: Job) { s.now - j.detectedAt > cfg.maxAttestationAgeMs }

  lemma AwaitingFinishes(cfg: Config, s: Sys, k: string)
    requires s.pending.Idle? && k in s.jobs && s.jobs[k].state == AwaitingAttestation
    requires Attestations(cfg, s.jobs[k].messageBytes, OwnReply(s.jobs[k].messageBytes)).Complete?
    ensures CanReach(cfg, s, k, if PastAge(cfg, s, s.jobs[k]) then DeadLetter else Delivered)
  {
    if PastAge(cfg, s, s.jobs[k]) {
      var e := Expire(k, s.now);
      ReachedNow(cfg, Step(cfg, s, e).value, k);
      ReachVia(cfg, s, e, k, DeadLetter);
    } else {
      var e := Poll(k, s.now, OwnReply(s.jobs[k].messageBytes), s.jobs[k].pollAttempts);
      AttestedDelivers(cfg, Step(cfg, s, e).value, k);
      ReachVia(cfg, s, e, k, Delivered);
    }
  }

  /** Waiting for Iris is the one place where age decides. */
  predicate TooOld(cfg: Config, s: Sys, j: Job) {
    PastAge(cfg, s, j) && (j.state == AwaitingAttestation || (j.state == Detected && cfg.irisMode.RealIris?))
  }

  lemma IdleFinishes(cfg: Config, s: Sys, k: string)
    requires s.pending.Idle? && k in s.jobs && !Terminal(s.jobs[k].state) && StateFields(s.jobs[k])
    requires Attestations(cfg, s.jobs[k].messageBytes, OwnReply(s.jobs[k].messageBytes)).Complete?
    ensures CanReach(cfg, s, k, if TooOld(cfg, s, s.jobs[k]) then DeadLetter else Delivered)
  {
    var j := s.jobs[k];
    match j.state
    case Submitted => SubmittedDelivers(cfg, s, k);
    case Attested => AttestedDelivers(cfg, s, k);
    case AwaitingAttestation => AwaitingFinishes(cfg, s, k);
    case Detected =>
      if cfg.irisMode.MockIris? {
        AttestedDelivers(cfg, Step(cfg, s, MockAttest(k, s.now)).value, k);
        ReachVia(cfg, s, MockAttest(k, s.now), k, Delivered);
      } else {
        AwaitingFinishes(cfg, Step(cfg, s, StartAwaiting(k, s.now)).value, k);
        ReachVia(cfg, s, StartAwaiting(k, s.now), k, if TooOld(cfg, s, j) then DeadLetter else Delivered);
      }
  }

  lemma HelpExists(cfg: Config, s: Sys, k: string)
    requires Inv(cfg, s) && k in s.jobs && s.jobs[k].state != Skipped
    ensures Attestations(cfg, s.jobs[k].messageBytes, OwnReply(s.jobs[k].messageBytes)).Complete?
  {
    assert RowInv(cfg, k, s.jobs[k]);
    OwnReplyAccepted(s.jobs[k].messageBytes, cfg.knownRecipients, HookRouter(cfg, s.jobs[k].destinationDomain));
  }

  /** Where an unfinished row can end. */
  function Goal(cfg: Config, s: Sys, k: string): JobState
    requires k in s.jobs
  {
    if TooOld(cfg, s, s.jobs[k]) then DeadLetter else Delivered
  }

  lemma CrashedFinishes(cfg: Config, s: Sys, k: string)
    requires k in s.jobs && !Terminal(s.jobs[k].state) && StateFields(s.jobs[k])
    requires Attestations(cfg, s.jobs[k].messageBytes, OwnReply(s.jobs[k].messageBytes)).Complete?
    ensures CanReach(cfg, s, k, Goal(cfg, s, k))
  {
    IdleFinishes(cfg, s.(pending := Idle), k);
    ReachVia(cfg, s, Crash, k, Goal(cfg, s, k));
  }

  /**
   * From every reachable state, also right after a crash, every unfinished job can still be delivered; only
   * one that outlived the attestation age while waiting ends in the dead letters instead.
   */
  lemma NeverWedged(cfg: Config, trace: seq<Event>, k: string)
    requires Run(cfg, trace).Some? && k in Run(cfg, trace).value.jobs && !Terminal(Run(cfg, trace).value.jobs[k].state)
    ensures exists more ::
              var end := Run(cfg, trace + more);
              end.Some? && k in end.value.jobs && end.value.jobs[k].state == Goal(cfg, Run(cfg, trace).value, k)
  {
    var s := Run(cfg, trace).value;
    assert CanReach(cfg, s, k, Goal(cfg, s, k)) by {
      RunInv(cfg, trace);
      FieldsOf(cfg, s, k);
      HelpExists(cfg, s, k);
      CrashedFinishes(cfg, s, k);
    }
    var more :| var end := RunFrom(cfg, s, more);
                end.Some? && k in end.value.jobs && end.value.jobs[k].state == Goal(cfg, s, k);
    RunFromExtends(cfg, trace, more);
  }
}
