/** The job table: claim-once inserts, guarded transitions and the listings the ticks work from. */
module JobsRepo {
  import opened Wrappers
  import opened Jobs
  import opened Sorting

  // ----- listing by state, oldest first -----

  function Age(): Job -> int { (j: Job) => j.detectedAt }

  function KeyName(): Job -> string { (j: Job) => j.dedupKey }

  predicate OlderFirst(s: seq<Job>) {
    forall i, j :: 0 <= i < j < |s| ==> s[i].detectedAt <= s[j].detectedAt
  }

  /** The rows in insertion order that are in a state. */
  function InState(order: seq<string>, rows: map<string, Job>, state: JobState): seq<Job> {
    if order == [] then []
    else
      var rest := InState(order[..|order| - 1], rows, state);
      var key := order[|order| - 1];
      if key in rows && rows[key].state == state then rest + [rows[key]] else rest
  }

  /** All rows of a state in the order in which a listing takes them. */
  function Queue(order: seq<string>, rows: map<string, Job>, state: JobState): seq<Job> {
    SortBy(InState(order, rows, state), Age())
  }

  function Listed(order: seq<string>, rows: map<string, Job>, state: JobState, limit: nat): seq<Job> {
    var queue := Queue(order, rows, state);
    queue[..Min(limit, |queue|)]
  }

  predicate Distinct(s: seq<string>) {
    forall i, j :: 0 <= i < j < |s| ==> s[i] != s[j]
  }

  ghost predicate WellKeyed(rows: map<string, Job>) {
    forall k :: k in rows ==> rows[k].dedupKey == k
  }

  predicate DistinctKeys(s: seq<Job>) {
    forall i, j :: 0 <= i < j < |s| ==> s[i].dedupKey != s[j].dedupKey
  }

  lemma {:induction false} InStateContents(order: seq<string>, rows: map<string, Job>, state: JobState)
    requires WellKeyed(rows) && Distinct(order)
    ensures forall j :: j in InState(order, rows, state) <==>
              j.dedupKey in order && j.dedupKey in rows && rows[j.dedupKey] == j && j.state == state
    ensures DistinctKeys(InState(order, rows, state))
  {
    if order != [] {
      var init, last := order[..|order| - 1], order[|order| - 1];
      assert order == init + [last];
      InStateContents(init, rows, state);
      var rest := InState(init, rows, state);
      forall i | 0 <= i < |rest| ensures rest[i].dedupKey != last {
        assert rest[i] in rest;
        assert rest[i].dedupKey in init;
      }
    }
  }

  lemma SortedByAge(s: seq<Job>)
    requires DistinctKeys(s)
    ensures OlderFirst(SortBy(s, Age())) && DistinctKeys(SortBy(s, Age()))
    ensures forall j :: j in SortBy(s, Age()) <==> j in s
  {
    var sorted := SortBy(s, Age());
    SortIsSortedPermutation(s, Age());
    assert DistinctBy(s, KeyName());
    SortKeepsDistinct(s, Age(), KeyName());
    forall i, j | 0 <= i < j < |sorted|
      ensures sorted[i].detectedAt <= sorted[j].detectedAt && sorted[i].dedupKey != sorted[j].dedupKey
    {
      assert Age()(sorted[i]) <= Age()(sorted[j]) && KeyName()(sorted[i]) != KeyName()(sorted[j]);
    }
  }

  // ----- the exact order of a listing -----

  /** Where a key was inserted. */
  function IndexOf(order: seq<string>, key: string): nat {
    if order == [] || order[0] == key then 0 else 1 + IndexOf(order[1..], key)
  }

  lemma {:induction false} IndexIsPosition(order: seq<string>, i: nat)
    requires Distinct(order) && i < |order|
    ensures IndexOf(order, order[i]) == i
  {
    if i > 0 {
      assert order[0] != order[i];
      IndexIsPosition(order[1..], i - 1);
    }
  }

  /** Row x was detected before row k, or at the same time and inserted before it. */
  predicate Precedes(order: seq<string>, rows: map<string, Job>, x: string, k: string)
    requires x in rows && k in rows
  {
    || rows[x].detectedAt < rows[k].detectedAt
    || (rows[x].detectedAt == rows[k].detectedAt && IndexOf(order, x) < IndexOf(order, k))
  }

  /** The rows of the state that come before row k. */
  function AheadOf(order: seq<string>, rows: map<string, Job>, state: JobState, k: string): set<string>
    requires k in rows
  {
    set x | x in rows && rows[x].state == state && Precedes(order, rows, x, k)
  }

  function Inserted(order: seq<string>): Job -> int { (j: Job) => IndexOf(order, j.dedupKey) }

  /** The jobs stand in insertion order, all before position n. */
  ghost predicate InsertedInOrder(all: seq<string>, s: seq<Job>, n: nat) {
    && (forall i :: 0 <= i < |s| ==> IndexOf(all, s[i].dedupKey) < n)
    && (forall i, j :: 0 <= i < j < |s| ==> IndexOf(all, s[i].dedupKey) < IndexOf(all, s[j].dedupKey))
  }

  /** The rows of a state come in insertion order. */
  lemma {:induction false} InStateInOrder(all: seq<string>, n: nat, rows: map<string, Job>, state: JobState)
    requires WellKeyed(rows) && Distinct(all) && n <= |all|
    ensures InsertedInOrder(all, InState(all[..n], rows, state), n)
  {
    if n > 0 {
      InStateInOrder(all, n - 1, rows, state);
      IndexIsPosition(all, n - 1);
      assert all[..n][..n - 1] == all[..n - 1];
    } else {
      assert all[..0] == [];
    }
  }

  lemma QueueContents(order: seq<string>, rows: map<string, Job>, state: JobState)
    requires WellKeyed(rows) && Distinct(order) && forall k :: k in rows <==> k in order
    ensures DistinctKeys(Queue(order, rows, state))
    ensures forall j :: j in Queue(order, rows, state) <==>
              j.dedupKey in rows && rows[j.dedupKey] == j && j.state == state
  {
    InStateContents(order, rows, state);
    SortedByAge(InState(order, rows, state));
  }

  lemma QueueIsStable(order: seq<string>, rows: map<string, Job>, state: JobState)
    requires WellKeyed(rows) && Distinct(order)
    ensures SortedWithin(Queue(order, rows, state), Age(), Inserted(order))
  {
    assert order[..|order|] == order;
    InStateInOrder(order, |order|, rows, state);
    var all := InState(order, rows, state);
    forall i, j | 0 <= i < j < |all| ensures Inserted(order)(all[i]) < Inserted(order)(all[j]) {
      assert IndexOf(order, all[i].dedupKey) < IndexOf(order, all[j].dedupKey);
    }
    SortIsStable(all, Age(), Inserted(order));
  }

  function KeysOf(jobs: seq<Job>): (keys: set<string>)
    ensures forall x :: x in keys <==> exists i :: 0 <= i < |jobs| && jobs[i].dedupKey == x
  {
    if jobs == [] then {}
    else
      assert jobs == jobs[..|jobs| - 1] + [jobs[|jobs| - 1]];
      KeysOf(jobs[..|jobs| - 1]) + {jobs[|jobs| - 1].dedupKey}
  }

  lemma {:induction false} AsManyKeys(jobs: seq<Job>)
    requires DistinctKeys(jobs)
    ensures |KeysOf(jobs)| == |jobs|
  {
    if jobs != [] {
      var init, last := jobs[..|jobs| - 1], jobs[|jobs| - 1];
      AsManyKeys(init);
      assert forall i :: 0 <= i < |init| ==> init[i].dedupKey == jobs[i].dedupKey != last.dedupKey;
      assert last.dedupKey !in KeysOf(init);
    }
  }

  /** What stands before a row in the queue is exactly the rows that precede it. */
  lemma BeforeIsAhead(order: seq<string>, rows: map<string, Job>, state: JobState, at: nat)
    requires WellKeyed(rows) && Distinct(order) && forall k :: k in rows <==> k in order
    requires at < |Queue(order, rows, state)|
    ensures var q := Queue(order, rows, state);
            q[at].dedupKey in rows && KeysOf(q[..at]) == AheadOf(order, rows, state, q[at].dedupKey)
  {
    var q := Queue(order, rows, state);
    QueueContents(order, rows, state);
    QueueIsStable(order, rows, state);
    assert q[at] in q;
    var k := q[at].dedupKey;
    forall x | x in KeysOf(q[..at]) ensures x in AheadOf(order, rows, state, k) {
      var a :| 0 <= a < at && q[..at][a].dedupKey == x;
      assert q[a] in q && Sorting.Ahead(q[a], q[at], Age(), Inserted(order));
    }
    forall x | x in AheadOf(order, rows, state, k) ensures x in KeysOf(q[..at]) {
      assert rows[x] in q;
      var b :| 0 <= b < |q| && q[b] == rows[x];
      assert at < b ==> Sorting.Ahead(q[at], q[b], Age(), Inserted(order));
      assert b < at && q[..at][b].dedupKey == x;
    }
  }

  /** A row's place in the queue is the number of rows that precede it. */
  lemma PlaceInQueue(order: seq<string>, rows: map<string, Job>, state: JobState, k: string) returns (at: nat)
    requires WellKeyed(rows) && Distinct(order) && forall key :: key in rows <==> key in order
    requires k in rows && rows[k].state == state
    ensures at < |Queue(order, rows, state)| && Queue(order, rows, state)[at] == rows[k]
    ensures at == |AheadOf(order, rows, state, k)|
    ensures KeysOf(Queue(order, rows, state)[..at]) == AheadOf(order, rows, state, k)
  {
    var q := Queue(order, rows, state);
    QueueContents(order, rows, state);
    assert rows[k] in q;
    at :| 0 <= at < |q| && q[at] == rows[k];
    BeforeIsAhead(order, rows, state, at);
    assert DistinctKeys(q[..at]);
    AsManyKeys(q[..at]);
  }

  /** A row is listed exactly when fewer rows of its state than the limit precede it. */
  lemma ListedExactly(order: seq<string>, rows: map<string, Job>, state: JobState, limit: nat, k: string)
    requires WellKeyed(rows) && Distinct(order) && forall key :: key in rows <==> key in order
    requires k in rows && rows[k].state == state
    ensures rows[k] in Listed(order, rows, state, limit) <==> |AheadOf(order, rows, state, k)| < limit
  {
    var q, l := Queue(order, rows, state), Listed(order, rows, state, limit);
    var at := PlaceInQueue(order, rows, state, k);
    if at < limit {
      assert l[at] == rows[k];
    } else {
      QueueContents(order, rows, state);
      forall i | 0 <= i < |l| ensures l[i] != rows[k] {
        assert l[i] == q[i] && q[i].dedupKey != q[at].dedupKey;
      }
    }
  }

  /**
   * A listing holds only current rows of the state, each key once, oldest first; and when a row of the
   * state is left out, the listing is full of rows that are at least as old.
   */
  lemma ListingIsOldestRows(order: seq<string>, rows: map<string, Job>, state: JobState, limit: nat)
    requires WellKeyed(rows) && Distinct(order)
    requires forall k :: k in rows <==> k in order
    ensures var l := Listed(order, rows, state, limit);
            && OlderFirst(l) && DistinctKeys(l) && |l| <= limit
            && (forall j :: j in l ==> j.dedupKey in rows && rows[j.dedupKey] == j && j.state == state)
            && (forall k :: k in rows && rows[k].state == state && rows[k] !in l ==>
                  |l| == limit && forall j :: j in l ==> j.detectedAt <= rows[k].detectedAt)
  {
    var all := InState(order, rows, state);
    var sorted := SortBy(all, Age());
    InStateContents(order, rows, state);
    SortedByAge(all);
    var l := Listed(order, rows, state, limit);
    forall k | k in rows && rows[k].state == state && rows[k] !in l
      ensures |l| == limit && forall j :: j in l ==> j.detectedAt <= rows[k].detectedAt
    {
      assert rows[k] in all;
      assert rows[k] in sorted;
      var at :| 0 <= at < |sorted| && sorted[at] == rows[k];
      assert at >= |l|;
    }
  }

  // ----- the table -----

  class InMemoryJobsRepo {
    var order: seq<string> // keys in insertion order
    var rows: map<string, Job>

    ghost predicate Valid()
      reads this
    {
      && Distinct(order)
      && WellKeyed(rows)
      && forall k :: k in rows <==> k in order
    }

    constructor ()
      ensures Valid() && rows == map[] && order == []
    {
      order := [];
      rows := map[];
    }

    /** A table as it was persisted, its rows in the order in which they were inserted. */
    constructor Load(order: seq<string>, rows: map<string, Job>)
      requires Distinct(order) && WellKeyed(rows) && forall k :: k in rows <==> k in order
      ensures Valid() && this.rows == rows && this.order == order
    {
      this.order := order;
      this.rows := rows;
    }

    /** Claims a message by inserting its row; false, and no change, when the key is taken. */
    method InsertIfAbsent(job: Job) returns (inserted: bool)
      requires Valid()
      modifies this
      ensures Valid()
      ensures inserted == (job.dedupKey !in old(rows))
      ensures rows == if inserted then old(rows)[job.dedupKey := job] else old(rows)
    {
      if job.dedupKey in rows {
        return false;
      }
      rows := rows[job.dedupKey := job];
      order := order + [job.dedupKey];
      return true;
    }

    method Get(dedupKey: string) returns (job: Option<Job>)
      ensures job == if dedupKey in rows then Some(rows[dedupKey]) else None
    {
      if dedupKey in rows {
        return Some(rows[dedupKey]);
      }
      return None;
    }

    method ListByState(state: JobState, limit: nat) returns (jobs: seq<Job>)
      requires Valid()
      ensures jobs == Listed(order, rows, state, limit)
      ensures OlderFirst(jobs) && DistinctKeys(jobs) && |jobs| <= limit
      ensures forall j :: j in jobs ==> j.dedupKey in rows && rows[j.dedupKey] == j && j.state == state
    {
      ListingIsOldestRows(order, rows, state, limit);
      jobs := Listed(order, rows, state, limit);
    }

    /** Applies the patch if and only if the row is still in fromState. */
    method Transition(dedupKey: string, fromState: JobState, patch: JobPatch, now: int) returns (ok: bool)
      requires Valid()
      modifies this`rows
      ensures Valid()
      ensures ok == (dedupKey in old(rows) && old(rows)[dedupKey].state == fromState)
      ensures rows == if ok then old(rows)[dedupKey := ApplyPatch(old(rows)[dedupKey], patch, now)] else old(rows)
    {
      if dedupKey !in rows || rows[dedupKey].state != fromState {
        return false;
      }
      rows := rows[dedupKey := ApplyPatch(rows[dedupKey], patch, now)];
      return true;
    }

    /** The highest source block claimed for a domain. */
    method MaxSourceBlock(sourceDomain: nat) returns (max: Option<nat>)
      requires Valid()
      ensures max.None? <==> forall k :: k in rows ==> rows[k].sourceDomain != sourceDomain
      ensures max.Some? ==>
                && (exists k :: k in rows && rows[k].sourceDomain == sourceDomain && rows[k].sourceBlock == max.value)
                && (forall k :: k in rows && rows[k].sourceDomain == sourceDomain ==> rows[k].sourceBlock <= max.value)
    {
      max := None;
      for i := 0 to |order|
        invariant max.None? <==> forall n :: 0 <= n < i ==> rows[order[n]].sourceDomain != sourceDomain
        invariant max.Some? ==>
                    && (exists k :: k in rows && rows[k].sourceDomain == sourceDomain && rows[k].sourceBlock == max.value)
                    && (forall n :: 0 <= n < i && rows[order[n]].sourceDomain == sourceDomain ==>
                          rows[order[n]].sourceBlock <= max.value)
      {
        var j := rows[order[i]];
        if j.sourceDomain == sourceDomain && (max.None? || j.sourceBlock > max.value) {
          max := Some(j.sourceBlock);
        }
      }
    }
  }
}
