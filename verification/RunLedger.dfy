/**
 * Accounting of broadcasts over whole runs. Each transaction the network accepted for a job is observed
 * reverted, observed dropped, still outstanding, or lost to one of two named causes: a crash before its
 * hash was written, or a submission that threw although it was accepted.
 */
module RunLedger {
  import opened Wrappers
  import opened Jobs
  import opened Protocol
  import opened RunSafety
  import opened RunOrigins

  function Count(trace: seq<Event>, p: Event -> bool): nat {
    if trace == [] then 0 else Count(trace[..|trace| - 1], p) + if p(trace[|trace| - 1]) then 1 else 0
  }

  /** A count can only grow by meeting an event it counts. */
  lemma {:induction false} CountGrows(trace: seq<Event>, i: nat, j: nat, p: Event -> bool)
    requires i <= j <= |trace|
    ensures Count(trace[..i], p) <= Count(trace[..j], p)
    ensures Count(trace[..i], p) < Count(trace[..j], p) ==> exists m :: i <= m < j && p(trace[m])
  {
    if i < j {
      CountGrows(trace, i, j - 1, p);
      assert trace[..j][..j - 1] == trace[..j - 1];
      assert trace[..j][j - 1] == trace[j - 1];
    }
  }

  function IsAccepted(k: string): Event -> bool {
    (e: Event) => e.Broadcast? && e.key == k && (e.outcome.Accepted? || e.outcome.accepted)
  }

  function IsThrownAccepted(k: string): Event -> bool {
    (e: Event) => e.Broadcast? && e.key == k && e.outcome.Threw? && e.outcome.accepted
  }

  function IsReverted(k: string): Event -> bool { (e: Event) => e.RevertClear? && e.key == k }

  function IsDropped(k: string): Event -> bool { (e: Event) => e.DropClear? && e.key == k }

  /** Accepted transactions whose hash was still in memory when the process crashed. */
  ghost function LostByCrash(cfg: Config, trace: seq<Event>, k: string): nat
    requires Run(cfg, trace).Some?
  {
    if trace == [] then 0
    else
      var init := trace[..|trace| - 1];
      LostByCrash(cfg, init, k)
      + if trace[|trace| - 1].Crash? && HoldsHash(Run(cfg, init).value, k) then 1 else 0
  }

  predicate HashOf(pending: Pending, k: string) { pending.AcceptedTx? && pending.key == k }

  predicate HoldsHash(s: Sys, k: string) { HashOf(s.pending, k) }

  predicate HasHash(state: JobState) { state == Submitted || state == Delivered }

  /** Transactions of the job that are neither resolved nor forgotten. */
  function Outstanding(s: Sys, k: string): nat {
    (if k in s.jobs && HasHash(s.jobs[k].state) then 1 else 0) + (if HoldsHash(s, k) then 1 else 0)
  }

  function One(b: bool): nat { if b then 1 else 0 }

  lemma WriteOutstanding(cfg: Config, j: Job, e: Event, pending: Pending, now: int)
    requires IsWrite(e) && NextRow(cfg, j, e, pending, now).Some?
    requires StateFields(j)
    ensures var r := NextRow(cfg, j, e, pending, now).value;
            One(HasHash(r.state)) + One(HashOf(PendingAfter(e, pending), e.key)) + One(e.RevertClear?) + One(e.DropClear?)
            == One(HasHash(j.state)) + One(HashOf(pending, e.key))
  {
  }

  lemma ForeignPending(cfg: Config, j: Job, e: Event, pending: Pending, now: int, k: string)
    requires IsWrite(e) && NextRow(cfg, j, e, pending, now).Some? && e.key != k
    ensures HashOf(PendingAfter(e, pending), k) == HashOf(pending, k)
  {
  }

  /** What was accepted or resolved by e, next to what it left outstanding. */
  ghost predicate Balanced(s: Sys, e: Event, t: Sys, k: string) {
    Outstanding(t, k)
      + One(IsReverted(k)(e)) + One(IsDropped(k)(e)) + One(e.Crash? && HoldsHash(s, k)) + One(IsThrownAccepted(k)(e))
    == Outstanding(s, k) + One(IsAccepted(k)(e))
  }

  lemma WriteBalanced(cfg: Config, s: Sys, e: Event, k: string)
    requires IsWrite(e) && Step(cfg, s, e).Some? && StateFields(s.jobs[e.key])
    ensures Balanced(s, e, Step(cfg, s, e).value, k)
  {
    if e.key == k {
      WriteOutstanding(cfg, s.jobs[k], e, s.pending, s.now);
    } else {
      ForeignPending(cfg, s.jobs[e.key], e, s.pending, s.now, k);
    }
  }

  lemma BroadcastBalanced(cfg: Config, s: Sys, e: Event, k: string)
    requires e.Broadcast? && CanBroadcast(s, e)
    ensures Balanced(s, e, s.(pending := AfterSubmit(e.key, e.outcome, s.now)), k)
  {
  }

  lemma ClaimBalanced(cfg: Config, s: Sys, e: Event, k: string)
    requires e.Claim? && Step(cfg, s, e).Some?
    ensures Balanced(s, e, Step(cfg, s, e).value, k)
  {
  }

  lemma OtherBalanced(cfg: Config, s: Sys, e: Event, k: string)
    requires !IsWrite(e) && Step(cfg, s, e).Some? && PendingInv(s)
    ensures Balanced(s, e, Step(cfg, s, e).value, k)
  {
    match e
    case Broadcast(_, _, _, _, _, _) => BroadcastBalanced(cfg, s, e, k);
    case Claim(_, _) => ClaimBalanced(cfg, s, e, k);
    case Advance(_) =>
    case Crash =>
  }

  /** How often the process was restarted. */
  function Crashes(trace: seq<Event>): nat {
    if trace == [] then 0 else Crashes(trace[..|trace| - 1]) + One(trace[|trace| - 1].Crash?)
  }

  /** Conservation, in every run with any number of crashes. */
  lemma {:induction false} BroadcastsConserved(cfg: Config, trace: seq<Event>, k: string)
    requires Run(cfg, trace).Some?
    ensures Count(trace, IsAccepted(k))
         == Count(trace, IsReverted(k)) + Count(trace, IsDropped(k)) + Outstanding(Run(cfg, trace).value, k)
            + LostByCrash(cfg, trace, k) + Count(trace, IsThrownAccepted(k))
  {
    if trace != [] {
      var init, e := trace[..|trace| - 1], trace[|trace| - 1];
      var s := Run(cfg, init).value;
      BroadcastsConserved(cfg, init, k);
      assert Balanced(s, e, Run(cfg, trace).value, k) by {
        RunInv(cfg, init);
        if IsWrite(e) {
          FieldsOf(cfg, s, e.key);
          WriteBalanced(cfg, s, e, k);
        } else {
          OtherBalanced(cfg, s, e, k);
        }
      }
    }
  }

  lemma {:induction false} CrashFreeLosesNothing(cfg: Config, trace: seq<Event>, k: string)
    requires Run(cfg, trace).Some? && Crashes(trace) == 0
    ensures LostByCrash(cfg, trace, k) == 0
  {
    if trace != [] {
      CrashFreeLosesNothing(cfg, trace[..|trace| - 1], k);
    }
  }

  /**
   * In a run without restarts and failed database writes in which a throwing submission means that nothing was
   * accepted, the accepted transactions of a job are those seen reverted, those seen dropped and the one outstanding,
   * if any.
   */
  lemma {:induction false} CrashFreeConservation(cfg: Config, trace: seq<Event>, k: string)
    requires Run(cfg, trace).Some? && Crashes(trace) == 0 && Count(trace, IsThrownAccepted(k)) == 0
    ensures Count(trace, IsAccepted(k))
         == Count(trace, IsReverted(k)) + Count(trace, IsDropped(k)) + Outstanding(Run(cfg, trace).value, k)
    ensures Outstanding(Run(cfg, trace).value, k) <= 1
  {
    BroadcastsConserved(cfg, trace, k);
    CrashFreeLosesNothing(cfg, trace, k);
    AtMostOneOutstanding(cfg, trace, k);
  }

  /** At most one transaction per job is outstanding. */
  lemma {:induction false} AtMostOneOutstanding(cfg: Config, trace: seq<Event>, k: string)
    requires Run(cfg, trace).Some?
    ensures Outstanding(Run(cfg, trace).value, k) <= 1
  {
    assert PendingInv(Run(cfg, trace).value) by { RunInv(cfg, trace); }
  }

  /** No crash falls between an acceptance and the write of its hash. */
  ghost predicate NoLoss(cfg: Config, trace: seq<Event>, k: string)
    requires Run(cfg, trace).Some?
  {
    LostByCrash(cfg, trace, k) == 0
  }

  lemma {:induction false} LossGrows(cfg: Config, trace: seq<Event>, i: nat, k: string)
    requires Run(cfg, trace).Some? && i <= |trace|
    ensures Run(cfg, trace[..i]).Some? && LostByCrash(cfg, trace[..i], k) <= LostByCrash(cfg, trace, k)
  {
    RunPrefix(cfg, trace, i);
    if i < |trace| {
      LossGrows(cfg, trace[..|trace| - 1], i, k);
      assert trace[..|trace| - 1][..i] == trace[..i];
    } else {
      assert trace[..i] == trace;
    }
  }

  lemma NothingOutstandingBefore(cfg: Config, trace: seq<Event>, i: nat)
    requires Run(cfg, trace).Some? && i < |trace| && trace[i].Broadcast?
    ensures Outstanding(At(cfg, trace, i), trace[i].key) == 0
  {
    AtStep(cfg, trace, i);
  }

  /**
   * The event resolves this transaction of row k in state s: the node, asked about its hash, has a receipt that it
   * failed, or it has been submitted for longer than the threshold, the node has no receipt for it and it is gone from
   * the mempool.
   */
  ghost predicate Resolves(cfg: Config, s: Sys, e: Event, k: string, hash: string) {
    && k in s.jobs && s.jobs[k].state == Submitted && OnChain(s.jobs[k]) && s.jobs[k].submittedTxHash == Some(hash)
    && (|| (IsReverted(k)(e) && e.hash == hash && e.receipt.Receipt? && e.receipt.status != 1)
        || (IsDropped(k)(e) && e.hash == hash && e.receipt.NoReceipt? && e.mempool.Dropped?
            && s.now >= e.tickNow > s.jobs[k].submittedAt.value + cfg.stuckTxThresholdMs))
  }

  lemma ResolutionWasSeen(cfg: Config, trace: seq<Event>, m: nat, k: string)
    requires Run(cfg, trace).Some? && m < |trace| && Forgets(trace[m], k)
    ensures Resolves(cfg, At(cfg, trace, m), trace[m], k, trace[m].hash)
  {
    AtStep(cfg, trace, m);
    var s, e := At(cfg, trace, m), trace[m];
    assert e.key in s.jobs && NextRow(cfg, s.jobs[e.key], e, s.pending, s.now).Some?;
  }

  /** Between two accepted broadcasts of one job some transaction of it is seen reverted or dropped. */
  lemma ClearedBetween(cfg: Config, trace: seq<Event>, i: nat, j: nat, k: string)
    requires Run(cfg, trace).Some? && NoLoss(cfg, trace, k)
    requires i < j < |trace| && IsAccepted(k)(trace[i]) && trace[j].Broadcast? && trace[j].key == k
    requires trace[i].outcome.Accepted?
    ensures exists m :: i < m < j && Forgets(trace[m], k)
  {
    NothingOutstandingBefore(cfg, trace, i);
    NothingOutstandingBefore(cfg, trace, j);
    RunPrefix(cfg, trace, i);
    RunPrefix(cfg, trace, j);
    LossGrows(cfg, trace, i, k);
    LossGrows(cfg, trace, j, k);
    BroadcastsConserved(cfg, trace[..i], k);
    BroadcastsConserved(cfg, trace[..j], k);
    AcceptedBetween(trace, i, j, k);
    CountGrows(trace, i, j, IsReverted(k));
    CountGrows(trace, i, j, IsDropped(k));
    var m :| i <= m < j && (IsReverted(k)(trace[m]) || IsDropped(k)(trace[m]));
    assert m != i && Forgets(trace[m], k);
  }

  /**
   * Two accepted broadcasts of one job are separated by an event that resolves the very transaction the first one was
   * accepted as: the node was asked about that hash.
   */
  lemma {:induction false} RebroadcastOnlyAfterResolution(cfg: Config, trace: seq<Event>, i: nat, j: nat, k: string)
    requires Run(cfg, trace).Some? && NoLoss(cfg, trace, k)
    requires i < j < |trace| && IsAccepted(k)(trace[i]) && trace[j].Broadcast? && trace[j].key == k
    requires trace[i].outcome.Accepted?
    ensures exists m :: i < m < j && Resolves(cfg, At(cfg, trace, m), trace[m], k, trace[i].outcome.hash)
    decreases j
  {
    ClearedBetween(cfg, trace, i, j, k);
    var m :| i < m < j && Forgets(trace[m], k);
    var b, at := AskedAboutBroadcast(cfg, trace, m, k);
    if b < i {
      ClearedBetween(cfg, trace, b, i, k);
    } else if i < b {
      RebroadcastOnlyAfterResolution(cfg, trace, i, b, k);
    } else {
      ResolutionWasSeen(cfg, trace, m, k);
    }
  }

  /** Every thrown acceptance is an acceptance, and event i is one that did not throw. */
  lemma {:induction false} AcceptedBetween(trace: seq<Event>, i: nat, j: nat, k: string)
    requires i < j <= |trace| && IsAccepted(k)(trace[i]) && trace[i].outcome.Accepted?
    ensures Count(trace[..j], IsAccepted(k)) - Count(trace[..i], IsAccepted(k))
         >= Count(trace[..j], IsThrownAccepted(k)) - Count(trace[..i], IsThrownAccepted(k)) + 1
  {
    assert trace[..j][..j - 1] == trace[..j - 1];
    assert trace[..j][j - 1] == trace[j - 1];
    if i < j - 1 {
      AcceptedBetween(trace, i, j - 1, k);
    }
  }
}
