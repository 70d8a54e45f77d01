/** The retry budget and the backoff, over whole runs with crashes and stuck-transaction recoveries. */
module RunRetries {
  import opened Wrappers
  import opened Jobs
  import opened Protocol
  import opened RunSafety
  import opened RunLedger

  /** When each counted failure of the job was written. */
  ghost function FailTimes(cfg: Config, trace: seq<Event>, k: string): seq<int>
    requires Run(cfg, trace).Some?
  {
    if trace == [] then []
    else
      var init, e := trace[..|trace| - 1], trace[|trace| - 1];
      FailTimes(cfg, init, k) + if e == CountFailure(k) then [Run(cfg, init).value.now] else []
  }

  ghost predicate Spaced(f: seq<int>) {
    forall i :: 0 <= i < |f| - 1 ==> f[i] + Delay(i + 1) <= f[i + 1]
  }

  /** The earliest time of the attempt after the failures f. */
  function ReadyAt(f: seq<int>): int
    requires f != []
  {
    f[|f| - 1] + Delay(|f|)
  }

  predicate GaveUp(j: Job) { j.state == DeadLetter && j.deadLetterReason == Some(RetriesExhausted) }

  /** What a row and a pending write say about the failures counted so far. */
  ghost predicate RowBackoff(j: Job, pending: Pending, now: int, f: seq<int>) {
    && Spaced(f)
    && |f| == (if GaveUp(j) then MAX_RELAY_RETRIES + 1 else j.retryAttempts)
    && (f != [] ==>
          && f[|f| - 1] <= now
          && (j.nextRetryAt.Some? ==> j.nextRetryAt.value == ReadyAt(f) || GaveUp(j))
          && (j.nextRetryAt.None? && !GaveUp(j) ==> ReadyAt(f) <= now)
          && (!pending.Idle? && pending.key == j.dedupKey ==> ReadyAt(f) <= now))
    && (f == [] ==> j.nextRetryAt.None?)
  }

  lemma CountedBackoff(cfg: Config, j: Job, pending: Pending, now: int, f: seq<int>)
    requires j.state == Attested && pending == FailureSeen(j.dedupKey)
    requires StateFields(j) && j.retryAttempts <= MAX_RELAY_RETRIES && RowBackoff(j, pending, now, f)
    ensures RowBackoff(ApplyPatch(j, AfterFailure(j.retryAttempts, now), now), Idle, now, f + [now])
  {
    if f != [] {
      assert ReadyAt(f) <= now;
    }
    assert Spaced(f + [now]);
  }

  /** A write that counts nothing neither forgets the last failure nor moves the next attempt before its delay. */
  lemma KeptBackoff(cfg: Config, j: Job, e: Event, pending: Pending, now: int, f: seq<int>)
    requires IsWrite(e) && NextRow(cfg, j, e, pending, now).Some? && e.key == j.dedupKey && !e.CountFailure?
    requires StateFields(j) && RowBackoff(j, pending, now, f)
    ensures RowBackoff(NextRow(cfg, j, e, pending, now).value, PendingAfter(e, pending), now, f)
  {
  }

  lemma WriteBackoff(cfg: Config, j: Job, e: Event, pending: Pending, now: int, f: seq<int>)
    requires IsWrite(e) && NextRow(cfg, j, e, pending, now).Some? && e.key == j.dedupKey
    requires StateFields(j) && j.retryAttempts <= MAX_RELAY_RETRIES && RowBackoff(j, pending, now, f)
    ensures RowBackoff(NextRow(cfg, j, e, pending, now).value, PendingAfter(e, pending), now,
                       f + if e.CountFailure? then [now] else [])
  {
    if e.CountFailure? {
      CountedBackoff(cfg, j, pending, now, f);
    } else {
      KeptBackoff(cfg, j, e, pending, now, f);
      assert f + [] == f;
    }
  }

  ghost predicate Backoff(s: Sys, k: string, f: seq<int>) {
    if k in s.jobs then s.jobs[k].dedupKey == k && RowBackoff(s.jobs[k], s.pending, s.now, f) else f == []
  }

  lemma WriteKeepsBackoff(cfg: Config, s: Sys, e: Event, k: string, f: seq<int>)
    requires IsWrite(e) && Step(cfg, s, e).Some? && Backoff(s, k, f)
    requires s.jobs[e.key].dedupKey == e.key
    requires StateFields(s.jobs[e.key]) && s.jobs[e.key].retryAttempts <= MAX_RELAY_RETRIES
    ensures Backoff(Step(cfg, s, e).value, k, f + if e == CountFailure(k) then [s.now] else [])
  {
    if e.key == k {
      WriteBackoff(cfg, s.jobs[k], e, s.pending, s.now, f);
      WrittenFields(cfg, s.jobs[k], e, s.pending, s.now);
    } else {
      ForeignWrite(cfg, s.jobs[e.key], e, s.pending, s.now, k);
      assert f + [] == f;
    }
  }

  lemma ForeignWrite(cfg: Config, j: Job, e: Event, pending: Pending, now: int, k: string)
    requires IsWrite(e) && NextRow(cfg, j, e, pending, now).Some? && e.key != k
    ensures !PendingAfter(e, pending).Idle? && PendingAfter(e, pending).key == k ==> PendingAfter(e, pending) == pending
  {
  }

  lemma OtherKeepsBackoff(cfg: Config, s: Sys, e: Event, k: string, f: seq<int>)
    requires !IsWrite(e) && Step(cfg, s, e).Some? && Backoff(s, k, f)
    requires e.Broadcast? ==> e.key in s.jobs && s.jobs[e.key].state == Attested
    ensures Backoff(Step(cfg, s, e).value, k, f)
  {
  }

  lemma {:induction false} BackoffHolds(cfg: Config, trace: seq<Event>, k: string)
    requires Run(cfg, trace).Some?
    ensures Backoff(Run(cfg, trace).value, k, FailTimes(cfg, trace, k))
  {
    if trace != [] {
      var init, e := trace[..|trace| - 1], trace[|trace| - 1];
      var s, f := Run(cfg, init).value, FailTimes(cfg, init, k);
      BackoffHolds(cfg, init, k);
      if IsWrite(e) {
        assert s.jobs[e.key].dedupKey == e.key && StateFields(s.jobs[e.key])
            && s.jobs[e.key].retryAttempts <= MAX_RELAY_RETRIES by {
          RunInv(cfg, init);
          FieldsOf(cfg, s, e.key);
        }
        WriteKeepsBackoff(cfg, s, e, k, f);
      } else {
        OtherKeepsBackoff(cfg, s, e, k, f);
        assert f + [] == f;
      }
    }
  }

  /** The delay before the attempt after failure n is 2000 * 2^(n-1). */
  lemma DelayValues()
    ensures Delay(1) == 2000 && Delay(2) == 4000 && Delay(3) == 8000 && Delay(4) == 16000 && Delay(5) == 32000
  {
  }

  /** No broadcast starts before the backoff of the failures counted so far has passed. */
  lemma BroadcastsRespectBackoff(cfg: Config, trace: seq<Event>, i: nat)
    requires Run(cfg, trace).Some? && i < |trace| && trace[i].Broadcast?
    requires Run(cfg, trace[..i]).Some? && FailTimes(cfg, trace[..i], trace[i].key) != []
    ensures ReadyAt(FailTimes(cfg, trace[..i], trace[i].key)) <= At(cfg, trace, i).now
  {
    AtStep(cfg, trace, i);
    BackoffHolds(cfg, trace[..i], trace[i].key);
  }

  /**
   * The stored counter never passes 5 and is the number of counted failures, until a sixth one gives up;
   * and giving up takes at least 62 seconds from the first failure to the last.
   */
  lemma RetryBudget(cfg: Config, trace: seq<Event>, k: string)
    requires Run(cfg, trace).Some? && k in Run(cfg, trace).value.jobs
    ensures var j, f := Run(cfg, trace).value.jobs[k], FailTimes(cfg, trace, k);
            && j.retryAttempts <= MAX_RELAY_RETRIES
            && (!GaveUp(j) ==> |f| == j.retryAttempts)
            && (GaveUp(j) ==> |f| == 6 && f[5] - f[0] >= 62000)
  {
    BackoffHolds(cfg, trace, k);
    RunInv(cfg, trace);
    FieldsOf(cfg, Run(cfg, trace).value, k);
    DelayValues();
    var f := FailTimes(cfg, trace, k);
    if |f| == 6 {
      assert f[0] + 2000 <= f[1] && f[1] + 4000 <= f[2] && f[2] + 8000 <= f[3];
      assert f[3] + 16000 <= f[4] && f[4] + 32000 <= f[5];
    }
  }

  // ----- which failures are counted -----

  /** A submission that threw without being a replay, or a revert seen on chain. */
  function IsFailure(k: string): Event -> bool {
    (e: Event) =>
      || (e.RevertClear? && e.key == k)
      || (e.Broadcast? && e.key == k && e.outcome.Threw? && !AlreadyProcessed(e.outcome.message))
  }

  ghost function UncountedByCrash(cfg: Config, trace: seq<Event>, k: string): nat
    requires Run(cfg, trace).Some?
  {
    if trace == [] then 0
    else
      var init := trace[..|trace| - 1];
      UncountedByCrash(cfg, init, k)
      + One(trace[|trace| - 1].Crash? && Run(cfg, init).value.pending == FailureSeen(k))
  }

  ghost predicate FailureBalanced(s: Sys, e: Event, t: Sys, k: string) {
    One(t.pending == FailureSeen(k)) + One(e == CountFailure(k)) + One(e.Crash? && s.pending == FailureSeen(k))
    == One(s.pending == FailureSeen(k)) + One(IsFailure(k)(e))
  }

  lemma StepFailureBalanced(cfg: Config, s: Sys, e: Event, k: string)
    requires Step(cfg, s, e).Some?
    ensures FailureBalanced(s, e, Step(cfg, s, e).value, k)
  {
  }

  /** Every observed failure is counted exactly once unless a crash came before the count was written. */
  lemma {:induction false} FailuresCountedOnce(cfg: Config, trace: seq<Event>, k: string)
    requires Run(cfg, trace).Some?
    ensures Count(trace, IsFailure(k))
         == |FailTimes(cfg, trace, k)| + One(Run(cfg, trace).value.pending == FailureSeen(k))
            + UncountedByCrash(cfg, trace, k)
  {
    if trace != [] {
      var init := trace[..|trace| - 1];
      FailuresCountedOnce(cfg, init, k);
      StepFailureBalanced(cfg, Run(cfg, init).value, trace[|trace| - 1], k);
    }
  }

  lemma {:induction false} CrashFreeCountsAll(cfg: Config, trace: seq<Event>, k: string)
    requires Run(cfg, trace).Some? && Crashes(trace) == 0
    ensures UncountedByCrash(cfg, trace, k) == 0
  {
    if trace != [] {
      CrashFreeCountsAll(cfg, trace[..|trace| - 1], k);
    }
  }

  /** Without restarts and failed database writes a job is given up after exactly six failures. */
  lemma GivingUpTakesSixFailures(cfg: Config, trace: seq<Event>, k: string)
    requires Run(cfg, trace).Some? && Crashes(trace) == 0
    requires k in Run(cfg, trace).value.jobs && GaveUp(Run(cfg, trace).value.jobs[k])
    ensures Count(trace, IsFailure(k)) == 6
  {
    RetryBudget(cfg, trace, k);
    FailuresCountedOnce(cfg, trace, k);
    CrashFreeCountsAll(cfg, trace, k);
    assert PendingInv(Run(cfg, trace).value) by { RunInv(cfg, trace); }
  }
}
