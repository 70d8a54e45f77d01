/** A potential that bounds how often a job can change state between two mempool drops. */
module RunMeasure {
  import opened Wrappers
  import opened Jobs
  import opened Protocol
  import opened RunSafety
  import opened RunLedger
  import opened RunRetries

  /** How far a row is from a final state. A row attested without bytes has to wait for Iris again. */
  function Rank(j: Job): nat {
    match j.state
    case Detected => 7
    case AwaitingAttestation => 5
    case Attested => if BytesReady(j) then 4 else 6
    case Submitted => 3
    case _ => 0
  }

  /** Remaining retries first, phase second; a failure waiting to be counted is already partly paid for. */
  function Potential(j: Job, pending: Pending): int {
    16 * (MAX_RELAY_RETRIES + 1 - j.retryAttempts) + 2 * Rank(j) - if pending == FailureSeen(j.dedupKey) then 7 else 0
  }

  const TOP: nat := 110

  predicate Moves(a: Job, b: Job) { a.state != b.state || a.retryAttempts != b.retryAttempts }

  /**
   * On any row within the retry budget, even one imported without bytes, each write that changes the
   * state or the retry counter lowers the potential, except the recovery of a dropped transaction, which
   * raises it by at most 6.
   */
  lemma WriteDescends(cfg: Config, j: Job, e: Event, pending: Pending, now: int)
    requires IsWrite(e) && NextRow(cfg, j, e, pending, now).Some? && e.key == j.dedupKey
    requires j.retryAttempts <= MAX_RELAY_RETRIES
    ensures var r := NextRow(cfg, j, e, pending, now).value;
            && Potential(r, PendingAfter(e, pending)) + One(Moves(j, r)) <= Potential(j, pending) + 7 * One(e.DropClear?)
            && r.dedupKey == j.dedupKey && 0 <= Potential(r, PendingAfter(e, pending)) <= TOP
  {
    if e.Poll? {
      var result := Attestations(cfg, j.messageBytes, e.reply);
      assert result.Complete? || result.Error? || result.Pending?;
    }
  }

  function PotentialOf(s: Sys, k: string): int {
    if k in s.jobs then Potential(s.jobs[k], s.pending) else TOP
  }

  predicate MovesIn(s: Sys, t: Sys, k: string) {
    k in s.jobs && k in t.jobs && Moves(s.jobs[k], t.jobs[k])
  }

  ghost function MoveCount(cfg: Config, trace: seq<Event>, k: string): nat
    requires Run(cfg, trace).Some?
  {
    if trace == [] then 0
    else
      var init := trace[..|trace| - 1];
      MoveCount(cfg, init, k) + One(MovesIn(Run(cfg, init).value, Run(cfg, trace).value, k))
  }

  lemma ClaimedIsFresh(m: IndexedMessageSent, known: set<string>, hookRouter: Option<string>, received: bool, now: int)
    ensures ClaimedJob(m, known, hookRouter, received, now).retryAttempts == 0
    ensures Rank(ClaimedJob(m, known, hookRouter, received, now)) <= 7
  {
  }

  lemma ClaimedPotential(cfg: Config, s: Sys, e: Event)
    requires e.Claim? && Step(cfg, s, e).Some? && e.msg.id !in s.jobs
    ensures PotentialOf(Step(cfg, s, e).value, e.msg.id) <= TOP
  {
    var router := HookRouter(cfg, e.msg.destinationDomain);
    assert Step(cfg, s, e).value.jobs[e.msg.id] == ClaimedJob(e.msg, cfg.knownRecipients, router, e.received, s.now);
    ClaimedIsFresh(e.msg, cfg.knownRecipients, router, e.received, s.now);
  }

  ghost predicate Descends(s: Sys, e: Event, t: Sys, k: string) {
    PotentialOf(t, k) + One(MovesIn(s, t, k))
    <= PotentialOf(s, k) + 7 * (One(IsDropped(k)(e)) + One(e.Crash? && s.pending == FailureSeen(k)))
  }

  lemma WriteStepDescends(cfg: Config, s: Sys, e: Event, k: string)
    requires IsWrite(e) && Step(cfg, s, e).Some?
    requires s.jobs[e.key].dedupKey == e.key && s.jobs[e.key].retryAttempts <= MAX_RELAY_RETRIES
    requires k in s.jobs ==> s.jobs[k].dedupKey == k
    ensures Descends(s, e, Step(cfg, s, e).value, k)
  {
    if e.key == k {
      WriteDescends(cfg, s.jobs[k], e, s.pending, s.now);
    } else {
      ForeignFailure(cfg, s.jobs[e.key], e, s.pending, s.now, k);
    }
  }

  lemma ForeignFailure(cfg: Config, j: Job, e: Event, pending: Pending, now: int, k: string)
    requires IsWrite(e) && NextRow(cfg, j, e, pending, now).Some? && e.key != k
    ensures (PendingAfter(e, pending) == FailureSeen(k)) == (pending == FailureSeen(k))
  {
  }

  lemma OtherStepDescends(cfg: Config, s: Sys, e: Event, k: string)
    requires !IsWrite(e) && Step(cfg, s, e).Some?
    requires k in s.jobs ==> s.jobs[k].dedupKey == k
    ensures Descends(s, e, Step(cfg, s, e).value, k)
  {
    if e.Claim? && e.msg.id !in s.jobs {
      ClaimedPotential(cfg, s, e);
    }
  }

  /** In every run a job makes at most 110 moves, plus 7 for each drop and each failure a crash left uncounted. */
  lemma {:induction false} MovesAreBounded(cfg: Config, trace: seq<Event>, k: string)
    requires Run(cfg, trace).Some?
    ensures MoveCount(cfg, trace, k) + PotentialOf(Run(cfg, trace).value, k)
         <= TOP + 7 * (Count(trace, IsDropped(k)) + UncountedByCrash(cfg, trace, k))
    ensures PotentialOf(Run(cfg, trace).value, k) >= 0
  {
    if trace != [] {
      var init, e := trace[..|trace| - 1], trace[|trace| - 1];
      var s := Run(cfg, init).value;
      MovesAreBounded(cfg, init, k);
      assert Descends(s, e, Run(cfg, trace).value, k) by {
        RunInv(cfg, init);
        if k in s.jobs { FieldsOf(cfg, s, k); }
        if IsWrite(e) {
          FieldsOf(cfg, s, e.key);
          WriteStepDescends(cfg, s, e, k);
        } else {
          OtherStepDescends(cfg, s, e, k);
        }
      }
      PotentialIsNatural(cfg, trace, k);
    }
  }

  lemma PotentialIsNatural(cfg: Config, trace: seq<Event>, k: string)
    requires Run(cfg, trace).Some?
    ensures PotentialOf(Run(cfg, trace).value, k) >= 0
  {
    var s := Run(cfg, trace).value;
    if k in s.jobs {
      assert s.jobs[k].retryAttempts <= MAX_RELAY_RETRIES by {
        RunInv(cfg, trace);
        FieldsOf(cfg, s, k);
      }
    }
  }
}
