/**
 * The nonce stream of one chain under the two that submit on it: the broadcasts of the jobs bound for the chain and the
 * relay requests for it are the landings of the stream, in order.
 */
module SharedStream {
  import opened NonceCoordinator
  import Protocol
  import PrivacyRelay
  import FeeVerifiers

  /** What has landed, in the order in which it landed. */
  datatype Landed = Landed(task: Task, landing: Landing)

  function LandedIn(stream: seq<Event>): seq<Landed>
    requires Run(stream).Some?
  {
    if stream == [] then []
    else
      var init, e := stream[..|stream| - 1], stream[|stream| - 1];
      LandedIn(init) + if e.Land? then [Landed(Run(init).value.flight.task, e.landing)] else []
  }

  /** The landings of the jobs, and those of the relay requests. */
  function JobsAmong(landed: seq<Landed>): seq<Landed> {
    if landed == [] then []
    else
      var last := landed[|landed| - 1];
      JobsAmong(landed[..|landed| - 1]) + if last.task.JobBroadcast? then [last] else []
  }

  function RelaysAmong(landed: seq<Landed>): seq<Landed> {
    if landed == [] then []
    else
      var last := landed[|landed| - 1];
      RelaysAmong(landed[..|landed| - 1]) + if last.task.RelayRequest? then [last] else []
  }

  /** A landing of which its submitter was told that it failed, and which took no new nonce. */
  predicate Failed(l: Landed) { !l.landing.resolved && !l.landing.taken.New? }

  /** The landings behind the first n have failed. */
  ghost predicate FailedFrom(landed: seq<Landed>, n: nat) { forall i :: n <= i < |landed| ==> Failed(landed[i]) }

  lemma {:induction false} BlockedLandingsFail(stream: seq<Event>, more: seq<Event>)
    requires Run(stream + more).Some? && LostReplies(stream) > 0
    requires forall i :: 0 <= i < |more| ==> !CatchesUp(more[i])
    ensures Run(stream).Some? && LandedIn(stream) <= LandedIn(stream + more)
    ensures FailedFrom(LandedIn(stream + more), |LandedIn(stream)|)
  {
    StaysBlocked(stream, more);
    if more == [] {
      assert stream + more == stream;
    } else {
      var init := more[..|more| - 1];
      assert (stream + more)[..|stream + more| - 1] == stream + init;
      RunsFrom(stream + init, [more[|more| - 1]]);
      assert stream + init + [more[|more| - 1]] == stream + more;
      BlockedLandingsFail(stream, init);
    }
  }

  /** Which of the landings are of jobs, or of requests, does not change what the later ones are. */
  lemma {:induction false} FailedAmong(landed: seq<Landed>, n: nat)
    requires n <= |landed| && FailedFrom(landed, n)
    ensures FailedFrom(JobsAmong(landed), |JobsAmong(landed[..n])|)
    ensures FailedFrom(RelaysAmong(landed), |RelaysAmong(landed[..n])|)
  {
    if n < |landed| {
      var init := landed[..|landed| - 1];
      assert init[..n] == landed[..n];
      FailedAmong(init, n);
    } else {
      assert landed[..n] == landed;
    }
  }

  /** Once a reply is lost, the later landings of jobs and of requests alike have failed. */
  lemma LaterFail(stream: seq<Event>, later: seq<Event>)
    requires Run(stream + later).Some? && LostReplies(stream) > 0
    requires forall n :: 0 <= n < |later| ==> !CatchesUp(later[n])
    ensures Run(stream).Some?
    ensures FailedFrom(JobsAmong(LandedIn(stream + later)), |JobsAmong(LandedIn(stream))|)
    ensures FailedFrom(RelaysAmong(LandedIn(stream + later)), |RelaysAmong(LandedIn(stream))|)
  {
    BlockedLandingsFail(stream, later);
    var landed, before := LandedIn(stream + later), LandedIn(stream);
    FailedAmong(landed, |before|);
    assert landed[..|before|] == before;
  }

  // ----- the jobs on the stream -----

  /** What the submitter of a job was told about its broadcasts to one chain. */
  datatype Sent = Sent(key: string, outcome: Protocol.SubmitOutcome)

  function SentTo(trace: seq<Protocol.Event>, domain: nat): seq<Sent> {
    if trace == [] then []
    else
      var e := trace[|trace| - 1];
      SentTo(trace[..|trace| - 1], domain) + if e.Broadcast? && e.domain == domain then [Sent(e.key, e.outcome)] else []
  }

  lemma {:induction false} SentJoin(trace: seq<Protocol.Event>, more: seq<Protocol.Event>, domain: nat)
    ensures SentTo(trace + more, domain) == SentTo(trace, domain) + SentTo(more, domain)
  {
    if more == [] {
      assert trace + more == trace;
    } else {
      assert (trace + more)[..|trace + more| - 1] == trace + more[..|more| - 1];
      SentJoin(trace, more[..|more| - 1], domain);
    }
  }

  lemma {:induction false} SentContains(trace: seq<Protocol.Event>, domain: nat, i: nat) returns (n: nat)
    requires i < |trace| && trace[i].Broadcast? && trace[i].domain == domain
    ensures n < |SentTo(trace, domain)| && SentTo(trace, domain)[n] == Sent(trace[i].key, trace[i].outcome)
  {
    if i == |trace| - 1 {
      n := |SentTo(trace, domain)| - 1;
    } else {
      n := SentContains(trace[..|trace| - 1], domain, i);
    }
  }

  lemma SentLater(trace: seq<Protocol.Event>, more: seq<Protocol.Event>, domain: nat, i: nat) returns (at: nat)
    requires i < |more| && more[i].Broadcast? && more[i].domain == domain
    ensures |SentTo(trace, domain)| <= at < |SentTo(trace + more, domain)|
    ensures SentTo(trace + more, domain)[at] == Sent(more[i].key, more[i].outcome)
  {
    var n := SentContains(more, domain, i);
    SentJoin(trace, more, domain);
    at := |SentTo(trace, domain)| + n;
  }

  /** The job was told what became of its submission, and its ledger counts what the network took anew. */
  predicate Tells(l: Landed, s: Sent) {
    && l.task == JobBroadcast(s.key)
    && if s.outcome.Accepted? then l.landing.resolved
       else !l.landing.resolved && (s.outcome.accepted <==> l.landing.taken.New?)
  }

  /** The broadcasts to the chain are the landings of jobs on its stream. */
  ghost predicate Carries(stream: seq<Event>, trace: seq<Protocol.Event>, domain: nat)
    requires Run(stream).Some?
  {
    AllTold(JobsAmong(LandedIn(stream)), SentTo(trace, domain))
  }

  ghost predicate AllTold(landed: seq<Landed>, sent: seq<Sent>) {
    |landed| == |sent| && forall n :: 0 <= n < |sent| ==> Tells(landed[n], sent[n])
  }

  lemma ToldOfFailure(landed: seq<Landed>, before: nat, sent: seq<Sent>, at: nat)
    requires AllTold(landed, sent) && FailedFrom(landed, before) && before <= at < |sent|
    ensures sent[at].outcome.Threw? && !sent[at].outcome.accepted
  {
    assert Tells(landed[at], sent[at]) && Failed(landed[at]);
  }

  /**
   * What one lost reply does to the jobs: until the stream catches up, every broadcast of every job to that chain is
   * reported as failed and none is taken, so none of these jobs is ever submitted.
   */
  lemma LostReplyStallsJobs(stream: seq<Event>, later: seq<Event>, trace: seq<Protocol.Event>, more: seq<Protocol.Event>,
                            domain: nat, i: nat)
    requires Run(stream + later).Some? && LostReplies(stream) > 0 && Run(stream).Some?
    requires forall n :: 0 <= n < |later| ==> !CatchesUp(later[n])
    requires Carries(stream, trace, domain) && Carries(stream + later, trace + more, domain)
    requires i < |more| && more[i].Broadcast? && more[i].domain == domain
    ensures more[i].outcome.Threw? && !more[i].outcome.accepted
  {
    LaterFail(stream, later);
    var at := SentLater(trace, more, domain, i);
    ToldOfFailure(JobsAmong(LandedIn(stream + later)), |SentTo(trace, domain)|, SentTo(trace + more, domain), at);
  }

  // ----- the relay requests on the stream -----

  /** Whether the requests for one chain were told of a success when their submissions settled. */
  datatype Settled = Settled(id: nat, ok: bool)

  ghost function SettledOn(cfg: FeeVerifiers.RelayConfig, trace: seq<PrivacyRelay.Event>, chainId: nat): seq<Settled>
    requires PrivacyRelay.Run(cfg, trace).Some?
  {
    if trace == [] then []
    else
      var init, e := trace[..|trace| - 1], trace[|trace| - 1];
      var s := PrivacyRelay.Run(cfg, init).value;
      SettledOn(cfg, init, chainId)
      + if (e.SubmitOk? || e.SubmitFailed?) && s.live[e.id].req.chainId == chainId then [Settled(e.id, e.SubmitOk?)] else []
  }

  ghost predicate CarriesRequests(stream: seq<Event>, cfg: FeeVerifiers.RelayConfig, trace: seq<PrivacyRelay.Event>, chainId: nat)
    requires Run(stream).Some? && PrivacyRelay.Run(cfg, trace).Some?
  {
    var landed, settled := RelaysAmong(LandedIn(stream)), SettledOn(cfg, trace, chainId);
    |landed| == |settled|
    && forall n :: 0 <= n < |settled| ==>
         landed[n].task == RelayRequest(settled[n].id) && landed[n].landing.resolved == settled[n].ok
  }

  /** And to the relay: every request for that chain that was not settled before is told that its submission failed. */
  lemma LostReplyStallsRequests(stream: seq<Event>, later: seq<Event>, cfg: FeeVerifiers.RelayConfig,
                                trace: seq<PrivacyRelay.Event>, now: seq<PrivacyRelay.Event>, chainId: nat, n: nat)
    requires Run(stream + later).Some? && LostReplies(stream) > 0 && Run(stream).Some?
    requires forall m :: 0 <= m < |later| ==> !CatchesUp(later[m])
    requires PrivacyRelay.Run(cfg, trace).Some? && PrivacyRelay.Run(cfg, now).Some? && trace <= now
    requires CarriesRequests(stream, cfg, trace, chainId) && CarriesRequests(stream + later, cfg, now, chainId)
    requires |SettledOn(cfg, trace, chainId)| <= n < |SettledOn(cfg, now, chainId)|
    ensures !SettledOn(cfg, now, chainId)[n].ok
  {
    LaterFail(stream, later);
    assert Failed(RelaysAmong(LandedIn(stream + later))[n]);
  }
}
