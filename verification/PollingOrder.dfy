/** Which waiting rows a tick expires and polls, to the row, and what that means for a row with others ahead of it. */
module PollingOrder {
  import opened Jobs
  import opened JobsRepo
  import opened Protocol
  import opened StateMachine

  /** The table and its insertion order, as the repository keeps them. */
  ghost predicate TableOk(order: seq<string>, rows: map<string, Job>) {
    Distinct(order) && WellKeyed(rows) && forall k :: k in rows <==> k in order
  }

  ghost predicate Waits(rows: map<string, Job>, k: string) { k in rows && rows[k].state == AwaitingAttestation }

  /** The waiting rows that precede row k and are within the attestation age. */
  function YoungAhead(cfg: Config, now: int, order: seq<string>, rows: map<string, Job>, k: string): set<string>
    requires k in rows
  {
    set x | x in rows && rows[x].state == AwaitingAttestation && Precedes(order, rows, x, k) && !IsExpired(cfg, now, rows[x])
  }

  lemma ByAgeStep(cfg: Config, now: int, init: seq<Job>, last: Job)
    ensures ByAge(cfg, now, init + [last], false) == ByAge(cfg, now, init, false) + if IsExpired(cfg, now, last) then [] else [last]
  {
    assert (init + [last])[..|init|] == init;
  }

  /** An unexpired job's place among the unexpired ones is the number of unexpired ones before it. */
  lemma {:induction false} ByAgePlace(cfg: Config, now: int, before: seq<Job>, j: Job, after: seq<Job>)
    requires !IsExpired(cfg, now, j)
    ensures var young, place := ByAge(cfg, now, before + [j] + after, false), |ByAge(cfg, now, before, false)|;
            place < |young| && young[place] == j
  {
    if after == [] {
      ByAgeStep(cfg, now, before, j);
      assert before + [j] + after == before + [j];
    } else {
      var init, last := after[..|after| - 1], after[|after| - 1];
      ByAgePlace(cfg, now, before, j, init);
      ByAgeStep(cfg, now, before + [j] + init, last);
      assert before + [j] + after == (before + [j] + init) + [last];
    }
  }

  lemma PlaceAmongYoung(cfg: Config, now: int, jobs: seq<Job>, at: nat)
    requires at < |jobs| && !IsExpired(cfg, now, jobs[at])
    ensures var young, place := ByAge(cfg, now, jobs, false), |ByAge(cfg, now, jobs[..at], false)|;
            place < |young| && young[place] == jobs[at]
  {
    var before, after := jobs[..at], jobs[at + 1..];
    assert before + [jobs[at]] + after == jobs;
    ByAgePlace(cfg, now, before, jobs[at], after);
  }

  lemma YoungBefore(cfg: Config, now: int, order: seq<string>, rows: map<string, Job>, k: string, before: seq<Job>)
    requires TableOk(order, rows) && k in rows && DistinctKeys(before)
    requires forall j :: j in before ==> j.dedupKey in rows && rows[j.dedupKey] == j
    requires KeysOf(before) == AheadOf(order, rows, AwaitingAttestation, k)
    ensures |ByAge(cfg, now, before, false)| == |YoungAhead(cfg, now, order, rows, k)|
  {
    var young := ByAge(cfg, now, before, false);
    AsManyKeys(young);
    forall x | x in KeysOf(young) ensures x in YoungAhead(cfg, now, order, rows, k) {
      var i :| 0 <= i < |young| && young[i].dedupKey == x;
      assert young[i] in young;
      var m :| 0 <= m < |before| && before[m] == young[i];
      assert x in KeysOf(before);
    }
    forall x | x in YoungAhead(cfg, now, order, rows, k) ensures x in KeysOf(young) {
      assert x in KeysOf(before);
      var m :| 0 <= m < |before| && before[m].dedupKey == x;
      assert before[m] in before && before[m] in young;
      var i :| 0 <= i < |young| && young[i] == before[m];
    }
    assert KeysOf(young) == YoungAhead(cfg, now, order, rows, k);
  }

  /** A listed unexpired job is polled exactly when fewer than eight unexpired ones are listed before it. */
  lemma PolledByPlace(cfg: Config, now: int, jobs: seq<Job>, at: nat)
    requires DistinctKeys(jobs) && at < |jobs| && !IsExpired(cfg, now, jobs[at])
    ensures jobs[at] in Pollable(cfg, now, jobs) <==> |ByAge(cfg, now, jobs[..at], false)| < IRIS_POLL_CONCURRENCY
  {
    var young, polled := ByAge(cfg, now, jobs, false), Pollable(cfg, now, jobs);
    var place := |ByAge(cfg, now, jobs[..at], false)|;
    PlaceAmongYoung(cfg, now, jobs, at);
    if place < IRIS_POLL_CONCURRENCY {
      assert polled[place] == jobs[at];
    } else {
      forall i | 0 <= i < |polled| ensures polled[i] != jobs[at] {
        assert polled[i] == young[i] && young[i].dedupKey != young[place].dedupKey;
      }
    }
  }

  lemma PolledIsListed(cfg: Config, now: int, jobs: seq<Job>, j: Job)
    requires j in Pollable(cfg, now, jobs)
    ensures j in jobs
  {
    assert j in ByAge(cfg, now, jobs, false);
  }

  /** A listing is the front of the queue, so a row has the same rows before it in both. */
  lemma ListedPlace(order: seq<string>, rows: map<string, Job>, k: string) returns (at: nat)
    requires TableOk(order, rows) && Waits(rows, k) && |AheadOf(order, rows, AwaitingAttestation, k)| < TICK_BATCH
    ensures var l := Listed(order, rows, AwaitingAttestation, TICK_BATCH);
            && DistinctKeys(l) && at < |l| && l[at] == rows[k]
            && KeysOf(l[..at]) == AheadOf(order, rows, AwaitingAttestation, k)
            && forall j :: j in l[..at] ==> j.dedupKey in rows && rows[j.dedupKey] == j
  {
    var q, l := Queue(order, rows, AwaitingAttestation), Listed(order, rows, AwaitingAttestation, TICK_BATCH);
    at := PlaceInQueue(order, rows, AwaitingAttestation, k);
    assert l[at] == rows[k] && l[..at] == q[..at];
    QueueContents(order, rows, AwaitingAttestation);
    forall j | j in l[..at] ensures j.dedupKey in rows && rows[j.dedupKey] == j {
      assert j in q;
    }
    assert DistinctKeys(l) by {
      assert forall i :: 0 <= i < |l| ==> l[i] == q[i];
    }
  }

  /**
   * A waiting row within the attestation age is polled in a tick exactly when fewer than a hundred waiting rows
   * precede it and fewer than eight of those are within the age themselves.
   */
  lemma PolledExactly(cfg: Config, now: int, order: seq<string>, rows: map<string, Job>, k: string)
    requires TableOk(order, rows) && Waits(rows, k) && !IsExpired(cfg, now, rows[k])
    ensures rows[k] in Pollable(cfg, now, Listed(order, rows, AwaitingAttestation, TICK_BATCH))
       <==> |AheadOf(order, rows, AwaitingAttestation, k)| < TICK_BATCH
            && |YoungAhead(cfg, now, order, rows, k)| < IRIS_POLL_CONCURRENCY
  {
    var l := Listed(order, rows, AwaitingAttestation, TICK_BATCH);
    if |AheadOf(order, rows, AwaitingAttestation, k)| < TICK_BATCH {
      var at := ListedPlace(order, rows, k);
      PolledByPlace(cfg, now, l, at);
      YoungBefore(cfg, now, order, rows, k, l[..at]);
    } else {
      ListedExactly(order, rows, AwaitingAttestation, TICK_BATCH, k);
      if rows[k] in Pollable(cfg, now, l) {
        PolledIsListed(cfg, now, l, rows[k]);
      }
    }
  }

  // ----- one tick, row by row -----

  lemma ExpiredExactly(cfg: Config, now: int, order: seq<string>, rows: map<string, Job>, k: string)
    requires TableOk(order, rows) && Waits(rows, k)
    ensures rows[k] in ByAge(cfg, now, Listed(order, rows, AwaitingAttestation, TICK_BATCH), true)
       <==> IsExpired(cfg, now, rows[k]) && |AheadOf(order, rows, AwaitingAttestation, k)| < TICK_BATCH
  {
    ListedExactly(order, rows, AwaitingAttestation, TICK_BATCH, k);
  }

  lemma PolledAreWaiting(cfg: Config, now: int, order: seq<string>, was: map<string, Job>, polled: seq<Job>, j: Job)
    requires TableOk(order, was) && j in polled
    requires multiset(polled) == multiset(Pollable(cfg, now, Listed(order, was, AwaitingAttestation, TICK_BATCH)))
    ensures j.dedupKey in was && was[j.dedupKey] == j && j.state == AwaitingAttestation && !IsExpired(cfg, now, j)
  {
    var jobs := Listed(order, was, AwaitingAttestation, TICK_BATCH);
    ListingIsOldestRows(order, was, AwaitingAttestation, TICK_BATCH);
    assert j in multiset(polled);
    assert j in Pollable(cfg, now, jobs);
    assert j in ByAge(cfg, now, jobs, false);
  }

  /** What a swept row looks like: as promised when it was among the jobs, unchanged otherwise. */
  lemma SweptRow(jobs: seq<Job>, was: map<string, Job>, rows: map<string, Job>, p: Promise, k: string)
    requires Swept(jobs, |jobs|, was, rows, p) && k in was && WellKeyed(was)
    ensures k in rows && if was[k] in jobs then Kept(p, was[k], rows[k]) else rows[k] == was[k]
  {
    if was[k] in jobs {
      var i :| 0 <= i < |jobs| && jobs[i] == was[k];
      assert jobs[i].dedupKey == k;
    }
  }

  ghost predicate Patched(p: Promise) { p.ExpiredAt? || p.PolledBy? }

  lemma SweptKeys(jobs: seq<Job>, was: map<string, Job>, rows: map<string, Job>, p: Promise)
    requires Swept(jobs, |jobs|, was, rows, p) && WellKeyed(was) && Patched(p)
    ensures WellKeyed(rows) && rows.Keys == was.Keys
  {
    forall k | k in rows ensures rows[k].dedupKey == k {
      SweptRow(jobs, was, rows, p, k);
    }
  }

  /** Everything a tick over the waiting rows may do to a waiting row. */
  lemma RowInTick(cfg: Config, w: World, order: seq<string>, now: int, expired: seq<Job>, polled: seq<Job>,
                  was: map<string, Job>, mid: map<string, Job>, rows: map<string, Job>, k: string)
    requires TableOk(order, was) && Waits(was, k)
    requires WaitingSweep(cfg, w, order, now, expired, polled, was, mid, rows)
    ensures k in rows
    ensures if |AheadOf(order, was, AwaitingAttestation, k)| >= 100 then rows[k] == was[k]
            else if IsExpired(cfg, now, was[k]) then ExpiredRow(was[k], rows[k], now)
            else if |YoungAhead(cfg, now, order, was, k)| < 8 then PolledRow(cfg, w, was[k], rows[k])
            else rows[k] == was[k]
  {
    var jobs := Listed(order, was, AwaitingAttestation, TICK_BATCH);
    SweptKeys(expired, was, mid, ExpiredAt(now));
    SweptRow(expired, was, mid, ExpiredAt(now), k);
    SweptRow(polled, mid, rows, PolledBy(cfg, w), k);
    ExpiredExactly(cfg, now, order, was, k);
    if was[k] in expired {
      if mid[k] in polled {
        PolledAreWaiting(cfg, now, order, was, polled, mid[k]);
        assert false;
      }
    } else {
      assert (was[k] in polled) == (was[k] in Pollable(cfg, now, jobs)) by {
        assert was[k] in multiset(polled) <==> was[k] in multiset(Pollable(cfg, now, jobs));
      }
      if IsExpired(cfg, now, was[k]) {
        if was[k] in polled {
          PolledAreWaiting(cfg, now, order, was, polled, was[k]);
          assert false;
        }
      } else {
        PolledExactly(cfg, now, order, was, k);
      }
    }
  }

  /** It leaves all other rows alone. */
  lemma OtherRowInTick(cfg: Config, w: World, order: seq<string>, now: int, expired: seq<Job>, polled: seq<Job>,
                       was: map<string, Job>, mid: map<string, Job>, rows: map<string, Job>, k: string)
    requires TableOk(order, was) && k in was && was[k].state != AwaitingAttestation
    requires WaitingSweep(cfg, w, order, now, expired, polled, was, mid, rows)
    ensures k in rows && rows[k] == was[k]
  {
    ListingIsOldestRows(order, was, AwaitingAttestation, TICK_BATCH);
    SweptKeys(expired, was, mid, ExpiredAt(now));
    SweptRow(expired, was, mid, ExpiredAt(now), k);
    if mid[k] in polled {
      PolledAreWaiting(cfg, now, order, was, polled, mid[k]);
      assert false;
    }
    SweptRow(polled, mid, rows, PolledBy(cfg, w), k);
  }

  lemma TableStaysOk(cfg: Config, w: World, order: seq<string>, now: int, expired: seq<Job>, polled: seq<Job>,
                     was: map<string, Job>, mid: map<string, Job>, rows: map<string, Job>)
    requires TableOk(order, was)
    requires WaitingSweep(cfg, w, order, now, expired, polled, was, mid, rows)
    ensures TableOk(order, rows)
  {
    SweptKeys(expired, was, mid, ExpiredAt(now));
    SweptKeys(polled, mid, rows, PolledBy(cfg, w));
  }
}
