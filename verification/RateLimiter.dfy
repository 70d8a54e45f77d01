/** Token buckets per client: a bound on what any window can let through, and sweeps nobody can notice. */
module RateLimiter {

  datatype Bucket = Bucket(tokens: real, lastRefillMs: int)

  type Buckets = map<string, Bucket>

  const IDLE_MS: int := 600_000

  function MinReal(a: real, b: real): real { if a <= b then a else b }

  /** Tokens earned in ms milliseconds: capacity per minute. */
  function Earned(capacity: nat, ms: int): real { ms as real * (capacity as real / 60_000.0) }

  function Refilled(b: Bucket, capacity: nat, now: int): Bucket {
    if now > b.lastRefillMs
    then Bucket(MinReal(capacity as real, b.tokens + Earned(capacity, now - b.lastRefillMs)), now)
    else b
  }

  function BucketOf(buckets: Buckets, key: string, capacity: nat, now: int): Bucket {
    if key in buckets then Refilled(buckets[key], capacity, now) else Bucket(capacity as real, now)
  }

  function Allowed(buckets: Buckets, key: string, capacity: nat, now: int): bool {
    BucketOf(buckets, key, capacity, now).tokens >= 1.0
  }

  function AfterAllow(buckets: Buckets, key: string, capacity: nat, now: int): Buckets {
    var b := BucketOf(buckets, key, capacity, now);
    buckets[key := if b.tokens >= 1.0 then b.(tokens := b.tokens - 1.0) else b]
  }

  function AfterSweep(buckets: Buckets, now: int): Buckets {
    map k | k in buckets && buckets[k].lastRefillMs >= now - IDLE_MS :: buckets[k]
  }

  class TokenBucketLimiter {
    const capacityPerMinute: nat
    var buckets: Buckets

    constructor (capacityPerMinute: nat)
      ensures this.capacityPerMinute == capacityPerMinute && buckets == map[]
    {
      this.capacityPerMinute := capacityPerMinute;
      buckets := map[];
    }

    /** Refills the key's bucket and takes a token when there is a whole one; says whether there was. */
    method Allow(key: string, now: int) returns (ok: bool)
      modifies this
      ensures ok == Allowed(old(buckets), key, capacityPerMinute, now)
      ensures buckets == AfterAllow(old(buckets), key, capacityPerMinute, now)
    {
      var bucket := if key in buckets then buckets[key] else Bucket(capacityPerMinute as real, now);
      var elapsedMs := now - bucket.lastRefillMs;
      if elapsedMs > 0 {
        bucket := Bucket(MinReal(capacityPerMinute as real, bucket.tokens + Earned(capacityPerMinute, elapsedMs)), now);
      }
      if bucket.tokens >= 1.0 {
        buckets := buckets[key := bucket.(tokens := bucket.tokens - 1.0)];
        return true;
      }
      buckets := buckets[key := bucket];
      return false;
    }

    /** Forgets the buckets that were not used for ten minutes. */
    method Sweep(now: int)
      modifies this
      ensures buckets == AfterSweep(old(buckets), now)
    {
      var cutoff := now - IDLE_MS;
      var keys := buckets.Keys;
      ghost var all := buckets;
      ghost var seen: set<string> := {};
      while keys != {}
        invariant seen + keys == all.Keys && seen !! keys
        invariant buckets == map k | k in all && (k in keys || all[k].lastRefillMs >= cutoff) :: all[k]
        decreases keys
      {
        var k :| k in keys;
        if buckets[k].lastRefillMs < cutoff {
          buckets := buckets - {k};
        }
        keys := keys - {k};
        seen := seen + {k};
      }
    }
  }

  // ----- runs -----

  datatype Op = Hit(key: string, at: int) | SweepAt(at: int)

  function After(ops: seq<Op>, capacity: nat): Buckets {
    if ops == [] then map[]
    else
      AfterOp(After(ops[..|ops| - 1], capacity), ops[|ops| - 1], capacity)
  }

  function AfterOp(buckets: Buckets, op: Op, capacity: nat): Buckets {
    match op
    case Hit(key, at) => AfterAllow(buckets, key, capacity, at)
    case SweepAt(at) => AfterSweep(buckets, at)
  }

  /** The operation lets a request of this client through. */
  predicate Spends(buckets: Buckets, op: Op, key: string, capacity: nat) {
    op.Hit? && op.key == key && Allowed(buckets, key, capacity, op.at)
  }

  ghost predicate Monotone(ops: seq<Op>) {
    forall i, j :: 0 <= i < j < |ops| ==> ops[i].at <= ops[j].at
  }

  /** Buckets a run can reach by time now. */
  ghost predicate Sound(buckets: Buckets, capacity: nat, now: int) {
    forall k :: k in buckets ==> 0.0 <= buckets[k].tokens <= capacity as real && buckets[k].lastRefillMs <= now
  }

  lemma EarnedGrows(capacity: nat, a: int, b: int)
    requires 0 <= a <= b
    ensures 0.0 <= Earned(capacity, a) <= Earned(capacity, b)
    ensures Earned(capacity, b) == Earned(capacity, a) + Earned(capacity, b - a)
  {
    var rate := capacity as real / 60_000.0;
    assert b as real * rate == a as real * rate + (b - a) as real * rate;
  }

  /** Tokens never leave [0, capacity]. */
  lemma {:induction false} TokensStayInRange(ops: seq<Op>, capacity: nat, now: int)
    requires Monotone(ops) && (ops != [] ==> ops[|ops| - 1].at <= now)
    ensures Sound(After(ops, capacity), capacity, now)
  {
    if ops != [] {
      var init, op := ops[..|ops| - 1], ops[|ops| - 1];
      TokensStayInRange(init, capacity, op.at);
      if op.Hit? && op.key in After(init, capacity) {
        EarnedGrows(capacity, 0, op.at - After(init, capacity)[op.key].lastRefillMs);
      }
    }
  }

  /** The tokens a client would find at time now; a forgotten client has a full bucket. */
  function TokensAt(buckets: Buckets, key: string, capacity: nat, now: int): real {
    BucketOf(buckets, key, capacity, now).tokens
  }

  /** Waiting adds exactly what was earned, up to the capacity. */
  lemma WaitingRefills(buckets: Buckets, key: string, capacity: nat, now: int, later: int)
    requires Sound(buckets, capacity, now) && now <= later
    ensures TokensAt(buckets, key, capacity, later)
         == MinReal(capacity as real, TokensAt(buckets, key, capacity, now) + Earned(capacity, later - now))
  {
    EarnedGrows(capacity, 0, later - now);
    if key in buckets {
      EarnedGrows(capacity, now - buckets[key].lastRefillMs, later - buckets[key].lastRefillMs);
    }
  }

  // ----- the window bound -----

  function AllowedIn(ops: seq<Op>, lo: nat, hi: nat, key: string, capacity: nat): nat
    requires lo <= hi <= |ops|
    decreases hi
  {
    if lo == hi then 0
    else AllowedIn(ops, lo, hi - 1, key, capacity)
         + if Spends(After(ops[..hi - 1], capacity), ops[hi - 1], key, capacity) then 1 else 0
  }

  /** What one operation does to the tokens of a client at the time of the operation. */
  lemma OpTokens(buckets: Buckets, op: Op, key: string, capacity: nat)
    requires Sound(buckets, capacity, op.at)
    ensures TokensAt(AfterOp(buckets, op, capacity), key, capacity, op.at)
         == TokensAt(buckets, key, capacity, op.at) - (if Spends(buckets, op, key, capacity) then 1.0 else 0.0)
  {
    if op.SweepAt? && key in buckets && buckets[key].lastRefillMs < op.at - IDLE_MS {
      IdleIsFull(buckets[key], capacity, op.at);
    }
  }

  /** Ten idle minutes fill any bucket. */
  lemma IdleIsFull(b: Bucket, capacity: nat, now: int)
    requires 0.0 <= b.tokens <= capacity as real && b.lastRefillMs < now - IDLE_MS
    ensures Refilled(b, capacity, now).tokens == capacity as real
  {
    EarnedGrows(capacity, 60_000, now - b.lastRefillMs);
    assert Earned(capacity, 60_000) == capacity as real;
  }

  lemma WaitingAdds(buckets: Buckets, key: string, capacity: nat, now: int, later: int)
    requires Sound(buckets, capacity, now) && now <= later
    ensures TokensAt(buckets, key, capacity, later) <= TokensAt(buckets, key, capacity, now) + Earned(capacity, later - now)
  {
    WaitingRefills(buckets, key, capacity, now, later);
  }

  /** Requests let through so far plus tokens left never exceed the capacity plus what was earned. */
  ghost predicate WithinBudget(ops: seq<Op>, lo: nat, hi: nat, key: string, capacity: nat)
    requires lo < hi <= |ops|
  {
    AllowedIn(ops, lo, hi, key, capacity) as real + TokensAt(After(ops[..hi], capacity), key, capacity, ops[hi - 1].at)
    <= capacity as real + Earned(capacity, ops[hi - 1].at - ops[lo].at)
  }

  lemma OpSpends(ops: seq<Op>, lo: nat, hi: nat, key: string, capacity: nat)
    requires Monotone(ops) && lo < hi <= |ops|
    ensures AllowedIn(ops, lo, hi, key, capacity) as real + TokensAt(After(ops[..hi], capacity), key, capacity, ops[hi - 1].at)
         == AllowedIn(ops, lo, hi - 1, key, capacity) as real
            + TokensAt(After(ops[..hi - 1], capacity), key, capacity, ops[hi - 1].at)
  {
    assert ops[..hi][..hi - 1] == ops[..hi - 1];
    TokensStayInRange(ops[..hi - 1], capacity, ops[hi - 1].at);
    OpTokens(After(ops[..hi - 1], capacity), ops[hi - 1], key, capacity);
  }

  lemma {:induction false} WindowBudget(ops: seq<Op>, lo: nat, hi: nat, key: string, capacity: nat)
    requires Monotone(ops) && lo < hi <= |ops|
    ensures WithinBudget(ops, lo, hi, key, capacity)
    decreases hi
  {
    var before, now := After(ops[..hi - 1], capacity), ops[hi - 1].at;
    OpSpends(ops, lo, hi, key, capacity);
    if lo < hi - 1 {
      var prev := ops[hi - 2].at;
      WindowBudget(ops, lo, hi - 1, key, capacity);
      assert TokensAt(before, key, capacity, now) <= TokensAt(before, key, capacity, prev) + Earned(capacity, now - prev) by {
        TokensStayInRange(ops[..hi - 1], capacity, prev);
        WaitingAdds(before, key, capacity, prev, now);
      }
      EarnedGrows(capacity, prev - ops[lo].at, now - ops[lo].at);
    } else {
      assert TokensAt(before, key, capacity, now) <= capacity as real by {
        TokensStayInRange(ops[..hi - 1], capacity, now);
        TokensBounded(before, key, capacity, now);
      }
      EarnedGrows(capacity, 0, 0);
    }
  }

  lemma TokensBounded(buckets: Buckets, key: string, capacity: nat, now: int)
    requires Sound(buckets, capacity, now)
    ensures 0.0 <= TokensAt(buckets, key, capacity, now) <= capacity as real
  {
    WaitingRefills(buckets, key, capacity, now, now);
    if key in buckets {
      EarnedGrows(capacity, 0, now - buckets[key].lastRefillMs);
    }
  }

  /**
   * In any run, with any sweeps, the requests let through for one client between two operations T
   * milliseconds apart number at most capacity + T * capacity / 60000.
   */
  lemma WindowBound(ops: seq<Op>, lo: nat, hi: nat, key: string, capacity: nat)
    requires Monotone(ops) && lo < hi <= |ops|
    ensures AllowedIn(ops, lo, hi, key, capacity) as real
         <= capacity as real + (ops[hi - 1].at - ops[lo].at) as real * (capacity as real / 60_000.0)
  {
    WindowBudget(ops, lo, hi, key, capacity);
    TokensStayInRange(ops[..hi], capacity, ops[hi - 1].at);
    TokensBounded(After(ops[..hi], capacity), key, capacity, ops[hi - 1].at);
  }

  // ----- who is let through -----

  /** The bucket of a client was full at operation lo, and has lost what was let through since, when operation n comes. */
  ghost predicate FullSince(ops: seq<Op>, lo: nat, n: nat, key: string, capacity: nat)
    requires lo <= n < |ops|
  {
    TokensAt(After(ops[..n], capacity), key, capacity, ops[n].at) + AllowedIn(ops, lo, n, key, capacity) as real
    == capacity as real + Earned(capacity, ops[n].at - ops[lo].at)
  }

  lemma FullOrFullSince(full: real, tokens: real, count: real, earned: real, more: real)
    requires tokens + count == full + earned
    ensures MinReal(full, tokens + more) == full || MinReal(full, tokens + more) + count == full + (earned + more)
  {
  }

  lemma StillFullSince(ops: seq<Op>, lo: nat, n: nat, key: string, capacity: nat)
    requires Monotone(ops) && lo < n < |ops| && FullSince(ops, lo, n - 1, key, capacity)
    ensures FullSince(ops, lo, n, key, capacity)
         || TokensAt(After(ops[..n], capacity), key, capacity, ops[n].at) == capacity as real
  {
    var before, here, table := ops[n - 1].at, ops[n].at, After(ops[..n], capacity);
    OpSpends(ops, lo, n, key, capacity);
    TokensStayInRange(ops[..n], capacity, before);
    WaitingRefills(table, key, capacity, before, here);
    EarnedGrows(capacity, before - ops[lo].at, here - ops[lo].at);
    FullOrFullSince(capacity as real, TokensAt(table, key, capacity, before), AllowedIn(ops, lo, n, key, capacity) as real,
                    Earned(capacity, before - ops[lo].at), Earned(capacity, here - before));
  }

  lemma FullNow(ops: seq<Op>, n: nat, key: string, capacity: nat)
    requires n < |ops| && TokensAt(After(ops[..n], capacity), key, capacity, ops[n].at) == capacity as real
    ensures FullSince(ops, n, n, key, capacity)
  {
    EarnedGrows(capacity, 0, 0);
  }

  /** There always was an operation at which the bucket was full. */
  lemma {:induction false} FullOnce(ops: seq<Op>, n: nat, key: string, capacity: nat) returns (lo: nat)
    requires Monotone(ops) && n < |ops|
    ensures lo <= n && FullSince(ops, lo, n, key, capacity)
  {
    if n == 0 {
      lo := 0;
      FullNow(ops, 0, key, capacity);
    } else {
      lo := FullOnce(ops, n - 1, key, capacity);
      StillFullSince(ops, lo, n, key, capacity);
      if !FullSince(ops, lo, n, key, capacity) {
        lo := n;
        FullNow(ops, n, key, capacity);
      }
    }
  }

  /** Since operation lo, at most this many requests were let through for one more to fit by operation n. */
  ghost predicate RoomFor(ops: seq<Op>, lo: nat, n: nat, key: string, capacity: nat)
    requires lo <= n < |ops|
  {
    60_000 * (AllowedIn(ops, lo, n, key, capacity) + 1 - capacity) <= (ops[n].at - ops[lo].at) * capacity
  }

  lemma EarnedInMinutes(capacity: nat, ms: int, count: int)
    ensures count as real <= Earned(capacity, ms) <==> 60_000 * count <= ms * capacity
  {
    assert Earned(capacity, ms) * 60_000.0 == ms as real * capacity as real;
    assert ms as real * capacity as real == (ms * capacity) as real;
  }

  /**
   * A request is let through exactly when every window that ends with it had at most capacity - 1 requests of this client
   * let through, and one more for each 60000 / capacity milliseconds of its length. A refusal means that some
   * window had more.
   */
  lemma AllowedExactly(ops: seq<Op>, n: nat, key: string, capacity: nat)
    requires Monotone(ops) && n < |ops| && ops[n].Hit? && ops[n].key == key
    ensures Allowed(After(ops[..n], capacity), key, capacity, ops[n].at)
       <==> forall lo :: 0 <= lo <= n ==> RoomFor(ops, lo, n, key, capacity)
  {
    var tokens := TokensAt(After(ops[..n], capacity), key, capacity, ops[n].at);
    if tokens >= 1.0 {
      forall lo | 0 <= lo <= n ensures RoomFor(ops, lo, n, key, capacity) {
        WindowBudget(ops, lo, n + 1, key, capacity);
        OpSpends(ops, lo, n + 1, key, capacity);
        EarnedInMinutes(capacity, ops[n].at - ops[lo].at, AllowedIn(ops, lo, n, key, capacity) + 1 - capacity);
      }
    } else {
      var lo := FullOnce(ops, n, key, capacity);
      EarnedInMinutes(capacity, ops[n].at - ops[lo].at, AllowedIn(ops, lo, n, key, capacity) + 1 - capacity);
      assert !RoomFor(ops, lo, n, key, capacity);
    }
  }

  predicate HitOf(op: Op, key: string) { op.Hit? && op.key == key }

  /** The client keeps 60000 / capacity milliseconds between any two requests. */
  ghost predicate KeepsDistance(ops: seq<Op>, key: string, capacity: nat) {
    forall i, j :: 0 <= i < j < |ops| && HitOf(ops[i], key) && HitOf(ops[j], key) ==> (ops[j].at - ops[i].at) * capacity >= 60_000
  }

  /** What two stretches of time allow adds up. */
  lemma StretchesAdd(a: int, b: int, c: int, capacity: nat)
    ensures (c - a) * capacity == (c - b) * capacity + (b - a) * capacity
    ensures a <= c ==> 0 <= (c - a) * capacity
  {
  }

  lemma OnlyHitsCount(ops: seq<Op>, lo: nat, hi: nat, key: string, capacity: nat)
    requires lo < hi <= |ops|
    ensures AllowedIn(ops, lo, hi, key, capacity)
         <= AllowedIn(ops, lo, hi - 1, key, capacity) + if HitOf(ops[hi - 1], key) then 1 else 0
  {
  }

  lemma {:induction false} FewWereAllowed(ops: seq<Op>, lo: nat, hi: nat, n: nat, key: string, capacity: nat)
    requires Monotone(ops) && lo <= hi <= n < |ops| && KeepsDistance(ops, key, capacity) && HitOf(ops[n], key)
    requires forall i :: hi <= i < n ==> !HitOf(ops[i], key)
    ensures 60_000 * AllowedIn(ops, lo, hi, key, capacity) <= (ops[n].at - ops[lo].at) * capacity
    decreases hi
  {
    if lo == hi {
      StretchesAdd(ops[lo].at, ops[lo].at, ops[n].at, capacity);
    } else if HitOf(ops[hi - 1], key) {
      FewWereAllowed(ops, lo, hi - 1, hi - 1, key, capacity);
      StretchesAdd(ops[lo].at, ops[hi - 1].at, ops[n].at, capacity);
      OnlyHitsCount(ops, lo, hi, key, capacity);
    } else {
      FewWereAllowed(ops, lo, hi - 1, n, key, capacity);
      OnlyHitsCount(ops, lo, hi, key, capacity);
    }
  }

  /** A client that keeps this distance is never refused, whatever other clients do. */
  lemma PatientClientIsServed(ops: seq<Op>, n: nat, key: string, capacity: nat)
    requires Monotone(ops) && n < |ops| && HitOf(ops[n], key) && KeepsDistance(ops, key, capacity) && capacity >= 1
    ensures Allowed(After(ops[..n], capacity), key, capacity, ops[n].at)
  {
    forall lo | 0 <= lo <= n ensures RoomFor(ops, lo, n, key, capacity) {
      FewWereAllowed(ops, lo, n, n, key, capacity);
    }
    AllowedExactly(ops, n, key, capacity);
  }

  // ----- invisible sweeps -----

  function WithoutSweeps(ops: seq<Op>): seq<Op> {
    if ops == [] then []
    else WithoutSweeps(ops[..|ops| - 1]) + if ops[|ops| - 1].Hit? then [ops[|ops| - 1]] else []
  }

  /** The decisions of the hits of a run, in order. */
  function Decisions(ops: seq<Op>, capacity: nat): seq<bool> {
    if ops == [] then []
    else
      var init := ops[..|ops| - 1];
      Decisions(init, capacity)
      + if ops[|ops| - 1].Hit? then [Allowed(After(init, capacity), ops[|ops| - 1].key, capacity, ops[|ops| - 1].at)] else []
  }

  lemma {:induction false} WithoutSweepsMonotone(ops: seq<Op>)
    requires Monotone(ops)
    ensures Monotone(WithoutSweeps(ops))
    ensures forall i :: 0 <= i < |WithoutSweeps(ops)| ==> ops != [] && WithoutSweeps(ops)[i].at <= ops[|ops| - 1].at
  {
    if ops != [] {
      WithoutSweepsMonotone(ops[..|ops| - 1]);
    }
  }

  /** Two tables no request can tell apart from now on. */
  ghost predicate Alike(a: Buckets, b: Buckets, capacity: nat, now: int) {
    forall k :: TokensAt(a, k, capacity, now) == TokensAt(b, k, capacity, now)
  }

  lemma AlikeLater(a: Buckets, b: Buckets, capacity: nat, now: int, later: int)
    requires Sound(a, capacity, now) && Sound(b, capacity, now) && now <= later && Alike(a, b, capacity, now)
    ensures Alike(a, b, capacity, later)
  {
    forall k ensures TokensAt(a, k, capacity, later) == TokensAt(b, k, capacity, later) {
      WaitingRefills(a, k, capacity, now, later);
      WaitingRefills(b, k, capacity, now, later);
    }
  }

  /** An operation on one table, skipped on the other when it is a sweep, keeps them alike. */
  lemma StepAlike(a: Buckets, b: Buckets, op: Op, capacity: nat)
    requires Sound(a, capacity, op.at) && Sound(b, capacity, op.at) && Alike(a, b, capacity, op.at)
    ensures Alike(AfterOp(a, op, capacity), if op.Hit? then AfterOp(b, op, capacity) else b, capacity, op.at)
    ensures op.Hit? ==> Allowed(a, op.key, capacity, op.at) == Allowed(b, op.key, capacity, op.at)
  {
    if op.Hit? {
      assert TokensAt(a, op.key, capacity, op.at) == TokensAt(b, op.key, capacity, op.at);
    }
    forall k
      ensures TokensAt(AfterOp(a, op, capacity), k, capacity, op.at)
           == TokensAt(if op.Hit? then AfterOp(b, op, capacity) else b, k, capacity, op.at)
    {
      OpTokens(a, op, k, capacity);
      OpTokens(b, op, k, capacity);
      assert TokensAt(a, k, capacity, op.at) == TokensAt(b, k, capacity, op.at);
    }
  }

  lemma OneMore(ops: seq<Op>, op: Op, capacity: nat)
    ensures After(ops + [op], capacity) == AfterOp(After(ops, capacity), op, capacity)
    ensures op.Hit? ==> Decisions(ops + [op], capacity)
                        == Decisions(ops, capacity) + [Allowed(After(ops, capacity), op.key, capacity, op.at)]
  {
    assert (ops + [op])[..|ops|] == ops;
  }

  /** A run, with and without its last operation and with and without its sweeps, only reaches sound tables. */
  lemma AllSound(ops: seq<Op>, capacity: nat)
    requires Monotone(ops) && ops != []
    ensures var init, op := ops[..|ops| - 1], ops[|ops| - 1];
            && Sound(After(init, capacity), capacity, op.at) && Sound(After(WithoutSweeps(init), capacity), capacity, op.at)
            && Sound(After(ops, capacity), capacity, op.at) && Sound(After(WithoutSweeps(ops), capacity), capacity, op.at)
  {
    var init, op := ops[..|ops| - 1], ops[|ops| - 1];
    WithoutSweepsMonotone(init);
    WithoutSweepsMonotone(ops);
    TokensStayInRange(init, capacity, op.at);
    TokensStayInRange(WithoutSweeps(init), capacity, op.at);
    TokensStayInRange(ops, capacity, op.at);
    TokensStayInRange(WithoutSweeps(ops), capacity, op.at);
  }

  lemma LastOpAlike(ops: seq<Op>, capacity: nat)
    requires Monotone(ops) && ops != []
    requires Alike(After(ops[..|ops| - 1], capacity), After(WithoutSweeps(ops[..|ops| - 1]), capacity), capacity, ops[|ops| - 1].at)
    ensures Alike(After(ops, capacity), After(WithoutSweeps(ops), capacity), capacity, ops[|ops| - 1].at)
  {
    var init, op := ops[..|ops| - 1], ops[|ops| - 1];
    var plain := WithoutSweeps(init);
    AllSound(ops, capacity);
    StepAlike(After(init, capacity), After(plain, capacity), op, capacity);
    OneMore(plain, op, capacity);
    assert plain + [] == plain;
  }

  lemma {:induction false} SweptAlike(ops: seq<Op>, capacity: nat, now: int)
    requires Monotone(ops) && (ops != [] ==> ops[|ops| - 1].at <= now)
    ensures Alike(After(ops, capacity), After(WithoutSweeps(ops), capacity), capacity, now)
  {
    if ops != [] {
      var init, op := ops[..|ops| - 1], ops[|ops| - 1];
      SweptAlike(init, capacity, op.at);
      LastOpAlike(ops, capacity);
      AllSound(ops, capacity);
      AlikeLater(After(ops, capacity), After(WithoutSweeps(ops), capacity), capacity, op.at, now);
    }
  }

  lemma {:induction false} SameDecisions(ops: seq<Op>, capacity: nat)
    requires Monotone(ops)
    ensures Decisions(ops, capacity) == Decisions(WithoutSweeps(ops), capacity)
  {
    if ops != [] {
      var init, op := ops[..|ops| - 1], ops[|ops| - 1];
      SameDecisions(init, capacity);
      OneMore(WithoutSweeps(init), op, capacity);
      if op.Hit? {
        SweptAlike(init, capacity, op.at);
        assert TokensAt(After(init, capacity), op.key, capacity, op.at)
            == TokensAt(After(WithoutSweeps(init), capacity), op.key, capacity, op.at);
      } else {
        assert WithoutSweeps(ops) == WithoutSweeps(init);
      }
    }
  }

  /** Inserting sweeps anywhere into a run changes none of its decisions. */
  lemma SweepsAreInvisible(a: seq<Op>, b: seq<Op>, capacity: nat)
    requires Monotone(a) && Monotone(b) && WithoutSweeps(a) == WithoutSweeps(b)
    ensures Decisions(a, capacity) == Decisions(b, capacity)
  {
    SameDecisions(a, capacity);
    SameDecisions(b, capacity);
  }
}
