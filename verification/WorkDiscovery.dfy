/** Work discovery: claiming indexed messages behind the confirmation gate, oldest block first. */
module WorkDiscovery {
  import opened Wrappers
  import opened Hex
  import opened Classify
  import opened Sorting
  import opened Jobs
  import opened Protocol
  import opened StateMachine

  const DISCOVERY_BATCH_LIMIT: nat := 100

  datatype ChainProgress = ChainProgress(chainId: nat, lastIndexedBlock: nat)

  // ----- the watcher's view -----

  function Block(): IndexedMessageSent -> int { (m: IndexedMessageSent) => m.blockNumber }

  function Id(): IndexedMessageSent -> string { (m: IndexedMessageSent) => m.id }

  function ByBlock(messages: seq<IndexedMessageSent>): seq<IndexedMessageSent> { SortBy(messages, Block()) }

  predicate BehindGate(m: IndexedMessageSent, gate: map<nat, nat>) {
    m.chainId in gate && m.blockNumber <= gate[m.chainId]
  }

  /** The messages, in the given order, that pass the gate and have no job row. */
  function Unclaimed(messages: seq<IndexedMessageSent>, gate: map<nat, nat>, claimed: set<string>): seq<IndexedMessageSent> {
    if messages == [] then []
    else
      var rest := Unclaimed(messages[..|messages| - 1], gate, claimed);
      var m := messages[|messages| - 1];
      if BehindGate(m, gate) && m.id !in claimed then rest + [m] else rest
  }

  lemma {:induction false} UnclaimedGrows(messages: seq<IndexedMessageSent>, i: nat, gate: map<nat, nat>, claimed: set<string>)
    requires i <= |messages|
    ensures Unclaimed(messages[..i], gate, claimed) <= Unclaimed(messages, gate, claimed)
  {
    if i < |messages| {
      UnclaimedGrows(messages[..|messages| - 1], i, gate, claimed);
      assert messages[..|messages| - 1][..i] == messages[..i];
    } else {
      assert messages[..i] == messages;
    }
  }

  /** The first limit of the unclaimed messages in block order; the scan stops at the limit. */
  method UnclaimedMessages(messages: seq<IndexedMessageSent>, gate: map<nat, nat>, claimed: set<string>, limit: nat)
    returns (out: seq<IndexedMessageSent>)
    requires limit > 0
    ensures var all := Unclaimed(ByBlock(messages), gate, claimed); out == all[..Min(limit, |all|)]
  {
    var sorted := ByBlock(messages);
    out := [];
    for i := 0 to |sorted|
      invariant out == Unclaimed(sorted[..i], gate, claimed) && |out| < limit
    {
      assert sorted[..i + 1][..i] == sorted[..i];
      var m := sorted[i];
      if m.chainId !in gate || m.blockNumber > gate[m.chainId] {
        continue;
      }
      if m.id in claimed {
        continue;
      }
      out := out + [m];
      if |out| >= limit {
        UnclaimedGrows(sorted, i + 1, gate, claimed);
        return;
      }
    }
    assert sorted[..|sorted|] == sorted;
  }

  lemma {:induction false} UnclaimedSound(messages: seq<IndexedMessageSent>, gate: map<nat, nat>, claimed: set<string>)
    ensures forall m :: m in Unclaimed(messages, gate, claimed) <==>
              m in messages && BehindGate(m, gate) && m.id !in claimed
  {
    if messages != [] {
      assert messages == messages[..|messages| - 1] + [messages[|messages| - 1]];
      UnclaimedSound(messages[..|messages| - 1], gate, claimed);
    }
  }

  lemma {:induction false} UnclaimedInOrder(messages: seq<IndexedMessageSent>, gate: map<nat, nat>, claimed: set<string>)
    requires DistinctBy(messages, Id()) && Sorted(messages, Block())
    ensures DistinctBy(Unclaimed(messages, gate, claimed), Id()) && Sorted(Unclaimed(messages, gate, claimed), Block())
  {
    if messages != [] {
      var init := messages[..|messages| - 1];
      var rest := Unclaimed(init, gate, claimed);
      UnclaimedInOrder(init, gate, claimed);
      UnclaimedSound(init, gate, claimed);
      forall i | 0 <= i < |rest|
        ensures Id()(rest[i]) != Id()(messages[|messages| - 1]) && Block()(rest[i]) <= Block()(messages[|messages| - 1])
      {
        assert rest[i] in init;
        var n :| 0 <= n < |init| && init[n] == rest[i];
        assert messages[n] == rest[i];
      }
    }
  }

  // ----- draining -----

  function Ids(ms: seq<IndexedMessageSent>): set<string> { set m | m in ms :: m.id }

  lemma IdsAppend(ms: seq<IndexedMessageSent>, m: IndexedMessageSent)
    ensures Ids(ms + [m]) == Ids(ms) + {m.id}
  {
    assert forall x :: x in ms + [m] <==> x in ms || x == m;
    assert m in ms + [m];
  }

  lemma LastIsNew(messages: seq<IndexedMessageSent>)
    requires DistinctBy(messages, Id()) && messages != []
    ensures forall m :: m in messages[..|messages| - 1] ==> m.id != messages[|messages| - 1].id
  {
    var init := messages[..|messages| - 1];
    forall m | m in init ensures m.id != messages[|messages| - 1].id {
      var n :| 0 <= n < |init| && init[n] == m;
      assert Id()(messages[n]) != Id()(messages[|messages| - 1]);
    }
  }

  /** Claiming the first k unclaimed messages leaves exactly the others, in the same order. */
  lemma {:induction false} ClaimingDrains(messages: seq<IndexedMessageSent>, gate: map<nat, nat>, claimed: set<string>, k: nat)
    requires DistinctBy(messages, Id()) && k <= |Unclaimed(messages, gate, claimed)|
    ensures var u := Unclaimed(messages, gate, claimed); Unclaimed(messages, gate, claimed + Ids(u[..k])) == u[k..]
  {
    var u := Unclaimed(messages, gate, claimed);
    if messages == [] {
      assert claimed + Ids(u[..k]) == claimed;
    } else {
      var init, last := messages[..|messages| - 1], messages[|messages| - 1];
      var rest := Unclaimed(init, gate, claimed);
      LastIsNew(messages);
      if k <= |rest| {
        ClaimingDrains(init, gate, claimed, k);
        assert u[..k] == rest[..k];
        assert last.id !in Ids(rest[..k]) by { UnclaimedSound(init, gate, claimed); }
      } else {
        ClaimingDrains(init, gate, claimed, |rest|);
        assert rest[..|rest|] == rest && u[..k] == rest + [last];
        IdsAppend(rest, last);
        LastIsForeign(init, gate, claimed + Ids(rest), last.id);
        assert claimed + Ids(u[..k]) == claimed + Ids(rest) + {last.id};
      }
    }
  }

  lemma {:induction false} LastIsForeign(messages: seq<IndexedMessageSent>, gate: map<nat, nat>, claimed: set<string>,
                                               id: string)
    requires forall m :: m in messages ==> m.id != id
    ensures Unclaimed(messages, gate, claimed + {id}) == Unclaimed(messages, gate, claimed)
  {
    if messages != [] {
      LastIsForeign(messages[..|messages| - 1], gate, claimed, id);
    }
  }

  /** The claimed keys after one tick. */
  function NextKeys(messages: seq<IndexedMessageSent>, gate: map<nat, nat>, claimed: set<string>): set<string> {
    var u := Unclaimed(messages, gate, claimed);
    claimed + Ids(u[..Min(DISCOVERY_BATCH_LIMIT, |u|)])
  }

  function KeysAfter(messages: seq<IndexedMessageSent>, gate: map<nat, nat>, claimed: set<string>, ticks: nat): set<string> {
    if ticks == 0 then claimed else NextKeys(messages, gate, KeysAfter(messages, gate, claimed, ticks - 1))
  }

  lemma BatchesAdd(u: seq<IndexedMessageSent>, k: nat)
    ensures var left := u[Min(DISCOVERY_BATCH_LIMIT * k, |u|)..];
            left[Min(DISCOVERY_BATCH_LIMIT, |left|)..] == u[Min(DISCOVERY_BATCH_LIMIT * (k + 1), |u|)..]
  {
  }

  lemma TickDrains(messages: seq<IndexedMessageSent>, gate: map<nat, nat>, before: set<string>, u: seq<IndexedMessageSent>,
                   k: nat)
    requires DistinctBy(messages, Id())
    requires Unclaimed(messages, gate, before) == u[Min(DISCOVERY_BATCH_LIMIT * k, |u|)..]
    ensures Unclaimed(messages, gate, NextKeys(messages, gate, before)) == u[Min(DISCOVERY_BATCH_LIMIT * (k + 1), |u|)..]
  {
    var left := Unclaimed(messages, gate, before);
    ClaimingDrains(messages, gate, before, Min(DISCOVERY_BATCH_LIMIT, |left|));
    BatchesAdd(u, k);
  }

  /** With no arrivals, k ticks leave exactly the last max(0, n - 100k) of the n messages, taken from the front. */
  lemma {:induction false} DiscoveryDrains(messages: seq<IndexedMessageSent>, gate: map<nat, nat>, claimed: set<string>,
                                                 k: nat)
    requires DistinctBy(messages, Id())
    ensures var u := Unclaimed(messages, gate, claimed);
            Unclaimed(messages, gate, KeysAfter(messages, gate, claimed, k)) == u[Min(100 * k, |u|)..]
  {
    var u := Unclaimed(messages, gate, claimed);
    if k > 0 {
      DiscoveryDrains(messages, gate, claimed, k - 1);
      TickDrains(messages, gate, KeysAfter(messages, gate, claimed, k - 1), u, k - 1);
    } else {
      assert u[0..] == u;
    }
  }

  // ----- the gate -----

  /** lastIndexedBlock minus the chain's confirmations, for each chain where that is a block. */
  ghost predicate GateOf(progress: seq<ChainProgress>, confirmations: map<nat, nat>, gate: map<nat, nat>) {
    && (forall c :: c in gate ==>
          exists p :: p in progress && p.chainId == c && c in confirmations
            && gate[c] == p.lastIndexedBlock - confirmations[c])
    && (forall p :: p in progress && p.chainId in confirmations && p.lastIndexedBlock >= confirmations[p.chainId] ==>
          p.chainId in gate)
  }

  method ConfirmationGate(progress: seq<ChainProgress>, confirmations: map<nat, nat>) returns (gate: map<nat, nat>)
    ensures GateOf(progress, confirmations, gate)
  {
    gate := map[];
    for i := 0 to |progress|
      invariant GateOf(progress[..i], confirmations, gate)
    {
      var p := progress[i];
      assert progress[..i + 1] == progress[..i] + [p];
      if p.chainId in confirmations {
        var max := p.lastIndexedBlock - confirmations[p.chainId];
        if max >= 0 {
          gate := gate[p.chainId := max];
        }
      }
    }
    assert progress[..|progress|] == progress;
  }

  // ----- claiming -----

  /** The destination has already received the message's nonce. */
  predicate SeenAtDestination(msg: IndexedMessageSent, received: set<(nat, string)>) {
    (msg.sourceDomain, NewJob(msg, Detected, 0).nonce) in received
  }

  /** A fresh row of the message, detected when the row says. */
  ghost predicate FreshRow(msg: IndexedMessageSent, row: Job) {
    && row == Job(msg.id, if msg.messageHash == "" then Keccak256(msg.messageBytes) else msg.messageHash, msg.messageBytes,
                  msg.sourceDomain, msg.destinationDomain, row.nonce, msg.sourceTxHash, msg.blockNumber, row.state,
                  row.detectedAt, 0, None, None, None, 0, None, None, None, None, None, None, row.deadLetterReason,
                  row.detectedAt)
    && row.nonce == if IsHexBytes(msg.messageBytes) && |msg.messageBytes| >= 298 then "0x" + Lower(msg.messageBytes[26..90])
                    else "0x" + Zeros(64)
  }

  /**
   * A fresh row of the message: skipped for the first check that its bytes fail, or already delivered when it carries
   * a nonce that was seen at the destination, or detected.
   */
  ghost predicate ClaimedAs(cfg: Config, msg: IndexedMessageSent, received: set<(nat, string)>, row: Job) {
    var domain, bytes, known := msg.destinationDomain, msg.messageBytes, cfg.knownRecipients;
    var router := if domain in cfg.hookRouterByDomain then cfg.hookRouterByDomain[domain] else None;
    && FreshRow(msg, row)
    && if !RelayableBytes(bytes, known, router) then
         && row.state == Skipped && row.deadLetterReason.Some? && row.deadLetterReason.value.NotRelayable?
         && FirstFailure(bytes, known, router, row.deadLetterReason.value.skip)
       else
         && row.deadLetterReason.None?
         && row.state == if row.nonce != "0x" + Zeros(64) && (msg.sourceDomain, row.nonce) in received then AlreadyDelivered
                         else Detected
  }

  function All(ms: seq<IndexedMessageSent>): set<IndexedMessageSent> { set m | m in ms }

  /** The table kept every row it had. */
  ghost predicate OnlyMoreRows(was: map<string, Job>, rows: map<string, Job>) {
    forall k :: k in was ==> k in rows && rows[k] == was[k]
  }

  /** Row k is a claim of one of these messages. */
  ghost predicate ClaimOf(cfg: Config, ms: set<IndexedMessageSent>, received: set<(nat, string)>, k: string, rows: map<string, Job>) {
    k in rows && exists m :: m in ms && m.id == k && ClaimedAs(cfg, m, received, rows[k])
  }

  /** What is new in the table are claims of some of these messages. */
  ghost predicate GainedFrom(cfg: Config, ms: set<IndexedMessageSent>, received: set<(nat, string)>, was: map<string, Job>,
                             rows: map<string, Job>)
  {
    && OnlyMoreRows(was, rows)
    && forall k {:trigger ClaimOf(cfg, ms, received, k, rows)} :: k in rows && k !in was ==> ClaimOf(cfg, ms, received, k, rows)
  }

  lemma NothingGained(cfg: Config, ms: set<IndexedMessageSent>, received: set<(nat, string)>, rows: map<string, Job>)
    ensures GainedFrom(cfg, ms, received, rows, rows)
  {
  }

  // ----- rows and the messages they stand for -----

  /** Messages that share an id are one message. */
  ghost predicate IdsDiffer(ms: set<IndexedMessageSent>) { forall m, n :: m in ms && n in ms && m.id == n.id ==> m == n }

  /** Under the id of a known message nothing but that message is claimed. */
  ghost predicate Honest(ms: set<IndexedMessageSent>, known: set<IndexedMessageSent>) {
    forall m, n :: m in ms && n in known && m.id == n.id ==> m == n
  }

  /** The row carries this message: its bytes, where it was sent from and where it goes. */
  predicate RowOf(m: IndexedMessageSent, row: Job) {
    && row.dedupKey == m.id && row.messageBytes == m.messageBytes
    && row.sourceTxHash == m.sourceTxHash && row.sourceBlock == m.blockNumber
    && row.sourceDomain == m.sourceDomain && row.destinationDomain == m.destinationDomain
  }

  /** Every row under the id of a known message is that message's own. */
  ghost predicate Genuine(known: set<IndexedMessageSent>, rows: map<string, Job>) {
    forall m :: m in known && m.id in rows ==> RowOf(m, rows[m.id])
  }

  /** Rows stay and keep who they are. */
  ghost predicate IdentityKept(was: map<string, Job>, rows: map<string, Job>) {
    forall k :: k in was ==> k in rows && SameIdentity(was[k], rows[k])
  }

  lemma ClaimCarriesMessage(cfg: Config, m: IndexedMessageSent, received: set<(nat, string)>, row: Job)
    requires ClaimedAs(cfg, m, received, row)
    ensures RowOf(m, row)
  {
  }

  lemma GainedStaysGenuine(cfg: Config, ms: set<IndexedMessageSent>, known: set<IndexedMessageSent>, received: set<(nat, string)>,
                           was: map<string, Job>, rows: map<string, Job>)
    requires GainedFrom(cfg, ms, received, was, rows) && Honest(ms, known) && Genuine(known, was)
    ensures Genuine(known, rows)
  {
    forall m | m in known && m.id in rows ensures RowOf(m, rows[m.id]) {
      if m.id !in was {
        assert ClaimOf(cfg, ms, received, m.id, rows);
        var n :| n in ms && n.id == m.id && ClaimedAs(cfg, n, received, rows[m.id]);
        assert n == m;
      }
    }
  }

  lemma KeptStaysGenuine(known: set<IndexedMessageSent>, was: map<string, Job>, rows: map<string, Job>)
    requires IdentityKept(was, rows) && was.Keys == rows.Keys && Genuine(known, was)
    ensures Genuine(known, rows)
  {
    forall m | m in known && m.id in rows ensures RowOf(m, rows[m.id]) {
      assert SameIdentity(was[m.id], rows[m.id]);
    }
  }

  lemma GainedJoin(cfg: Config, ms: set<IndexedMessageSent>, first: set<IndexedMessageSent>, second: set<IndexedMessageSent>,
                   received: set<(nat, string)>, a: map<string, Job>, b: map<string, Job>, c: map<string, Job>)
    requires GainedFrom(cfg, first, received, a, b) && GainedFrom(cfg, second, received, b, c)
    requires first <= ms && second <= ms
    ensures GainedFrom(cfg, ms, received, a, c) && b.Keys <= c.Keys
  {
    forall k | k in c && k !in a ensures ClaimOf(cfg, ms, received, k, c) {
      if k in b {
        assert ClaimOf(cfg, first, received, k, b);
        var m :| m in first && m.id == k && ClaimedAs(cfg, m, received, b[k]);
      } else {
        assert ClaimOf(cfg, second, received, k, c);
        var m :| m in second && m.id == k && ClaimedAs(cfg, m, received, c[k]);
      }
    }
  }

  /** Classifies one message and inserts its row, unless the key is already taken. */
  method InsertClaim(actor: Actor, msg: IndexedMessageSent, seen: bool) returns (claimed: bool, ghost at: int)
    requires actor.Valid() && actor.pending.Idle? && FaithfulRow(msg)
    modifies actor`now, actor`pending, actor`trace, actor.repo
    ensures actor.Valid() && actor.pending.Idle? && old(actor.trace) <= actor.trace
    ensures claimed == (msg.id !in old(actor.repo.rows))
    ensures actor.repo.rows == if !claimed then old(actor.repo.rows)
            else old(actor.repo.rows)[msg.id := ClaimedJob(msg, actor.cfg.knownRecipients,
                                                           HookRouter(actor.cfg, msg.destinationDomain), seen, at)]
  {
    var now := actor.Now();
    at := now;
    var job := ClaimedJob(msg, actor.cfg.knownRecipients, HookRouter(actor.cfg, msg.destinationDomain), seen, now);
    ghost var before := actor.View();
    claimed := actor.repo.InsertIfAbsent(job);
    actor.Record(before, Claim(msg, seen));
  }

  /** The claim of one message, looked up at its destination first. */
  method ClaimMessage(actor: Actor, msg: IndexedMessageSent, received: set<(nat, string)>) returns (claimed: bool)
    requires actor.Valid() && actor.pending.Idle? && FaithfulRow(msg)
    modifies actor`now, actor`pending, actor`trace, actor.repo
    ensures actor.Valid() && actor.pending.Idle? && old(actor.trace) <= actor.trace
    ensures claimed == (msg.id !in old(actor.repo.rows))
    ensures actor.repo.rows.Keys == old(actor.repo.rows.Keys) + {msg.id}
    ensures GainedFrom(actor.cfg, {msg}, received, old(actor.repo.rows), actor.repo.rows)
  {
    ghost var before := actor.repo.rows;
    ghost var at;
    claimed, at := InsertClaim(actor, msg, SeenAtDestination(msg, received));
    if claimed {
      ClaimedJobIsClaim(actor.cfg, msg, received, at);
      GainedOne(actor.cfg, msg, received, before, actor.repo.rows[msg.id]);
    }
  }

  lemma ClaimedJobIsClaim(cfg: Config, msg: IndexedMessageSent, received: set<(nat, string)>, now: int)
    ensures ClaimedAs(cfg, msg, received, ClaimedJob(msg, cfg.knownRecipients, HookRouter(cfg, msg.destinationDomain),
                                                     SeenAtDestination(msg, received), now))
  {
    ClassifiedExactly(msg.messageBytes, cfg.knownRecipients, HookRouter(cfg, msg.destinationDomain));
    if IsHexBytes(msg.messageBytes) && |msg.messageBytes| >= 298 {
      assert Slice(msg.messageBytes[2..], 24, 88) == msg.messageBytes[26..90];
    }
  }

  lemma GainedOne(cfg: Config, msg: IndexedMessageSent, received: set<(nat, string)>, was: map<string, Job>, row: Job)
    requires msg.id !in was && ClaimedAs(cfg, msg, received, row)
    ensures GainedFrom(cfg, {msg}, received, was, was[msg.id := row])
  {
    assert ClaimOf(cfg, {msg}, received, msg.id, was[msg.id := row]);
  }

  lemma NextIsNew(batch: seq<IndexedMessageSent>, i: nat)
    requires i < |batch| && forall m, n :: 0 <= m < n < |batch| ==> batch[m].id != batch[n].id
    ensures batch[i].id !in Ids(batch[..i]) && Ids(batch[..i + 1]) == Ids(batch[..i]) + {batch[i].id}
  {
    assert batch[..i + 1] == batch[..i] + [batch[i]];
    IdsAppend(batch[..i], batch[i]);
    forall m | m in batch[..i] ensures m.id != batch[i].id {
      var n :| 0 <= n < i && batch[n] == m;
    }
  }

  /** The next message of a batch of which the first i have been claimed. */
  method ClaimNext(actor: Actor, batch: seq<IndexedMessageSent>, i: nat, received: set<(nat, string)>, ghost was: map<string, Job>)
    returns (isNew: bool)
    requires actor.Valid() && actor.pending.Idle? && i < |batch| && FaithfulRow(batch[i]) && batch[i].id !in was
    requires forall m, n :: 0 <= m < n < |batch| ==> batch[m].id != batch[n].id
    requires actor.repo.rows.Keys == was.Keys + Ids(batch[..i])
    requires GainedFrom(actor.cfg, All(batch), received, was, actor.repo.rows)
    modifies actor`now, actor`pending, actor`trace, actor.repo
    ensures actor.Valid() && actor.pending.Idle? && old(actor.trace) <= actor.trace && isNew
    ensures actor.repo.rows.Keys == was.Keys + Ids(batch[..i + 1])
    ensures GainedFrom(actor.cfg, All(batch), received, was, actor.repo.rows)
  {
    NextIsNew(batch, i);
    ghost var before := actor.repo.rows;
    isNew := ClaimMessage(actor, batch[i], received);
    assert actor.repo.rows.Keys == was.Keys + Ids(batch[..i + 1]);
    GainedJoin(actor.cfg, All(batch), All(batch), {batch[i]}, received, was, before, actor.repo.rows);
  }

  /** Claims messages in the given order; every one of them is new, so every claim succeeds. */
  method ClaimBatch(actor: Actor, batch: seq<IndexedMessageSent>, received: set<(nat, string)>) returns (claimed: nat)
    requires actor.Valid() && actor.pending.Idle?
    requires forall i :: 0 <= i < |batch| ==> FaithfulRow(batch[i]) && batch[i].id !in actor.repo.rows
    requires forall i, j :: 0 <= i < j < |batch| ==> batch[i].id != batch[j].id
    modifies actor`now, actor`pending, actor`trace, actor.repo
    ensures actor.Valid() && actor.pending.Idle? && old(actor.trace) <= actor.trace
    ensures actor.repo.rows.Keys == old(actor.repo.rows.Keys) + Ids(batch)
    ensures GainedFrom(actor.cfg, All(batch), received, old(actor.repo.rows), actor.repo.rows)
    ensures claimed == |batch|
  {
    claimed := 0;
    for i := 0 to |batch|
      invariant actor.Valid() && actor.pending.Idle? && old(actor.trace) <= actor.trace
      invariant actor.repo.rows.Keys == old(actor.repo.rows.Keys) + Ids(batch[..i])
      invariant GainedFrom(actor.cfg, All(batch), received, old(actor.repo.rows), actor.repo.rows)
      invariant claimed == i
    {
      var isNew := ClaimNext(actor, batch, i, received, old(actor.repo.rows));
      if isNew {
        claimed := claimed + 1;
      }
    }
    assert batch[..|batch|] == batch;
  }

  /** One discovery tick: at most 100 confirmed messages, in block order, each claimed once. */
  method DiscoverWork(actor: Actor, messages: seq<IndexedMessageSent>, progress: seq<ChainProgress>,
                      confirmations: map<nat, nat>, received: set<(nat, string)>)
    returns (claimed: nat, ghost gate: map<nat, nat>)
    requires actor.Valid() && actor.pending.Idle?
    requires forall m :: m in messages ==> FaithfulRow(m)
    requires DistinctBy(messages, Id())
    modifies actor`now, actor`pending, actor`trace, actor.repo
    ensures actor.Valid() && actor.pending.Idle? && old(actor.trace) <= actor.trace
    ensures GateOf(progress, confirmations, gate)
    ensures actor.repo.rows.Keys == NextKeys(ByBlock(messages), gate, old(actor.repo.rows.Keys))
    ensures GainedFrom(actor.cfg, All(messages), received, old(actor.repo.rows), actor.repo.rows)
    ensures claimed == Min(100, |Unclaimed(ByBlock(messages), gate, old(actor.repo.rows.Keys))|)
  {
    var limits := ConfirmationGate(progress, confirmations);
    gate := limits;
    if limits == map[] {
      NoGateNoWork(ByBlock(messages), actor.repo.rows.Keys);
      return 0, gate;
    }
    var batch := UnclaimedMessages(messages, limits, actor.repo.rows.Keys, DISCOVERY_BATCH_LIMIT);
    BatchIsNew(messages, limits, actor.repo.rows.Keys, batch);
    ghost var before := actor.repo.rows;
    claimed := ClaimBatch(actor, batch, received);
    GainedJoin(actor.cfg, All(messages), {}, All(batch), received, before, before, actor.repo.rows);
  }

  lemma {:induction false} NoGateNoWork(messages: seq<IndexedMessageSent>, claimed: set<string>)
    ensures Unclaimed(messages, map[], claimed) == []
  {
    if messages != [] {
      NoGateNoWork(messages[..|messages| - 1], claimed);
    }
  }

  /** A batch is confirmed, unclaimed, free of repeats and in block order. */
  lemma BatchIsNew(messages: seq<IndexedMessageSent>, gate: map<nat, nat>, claimed: set<string>,
                   batch: seq<IndexedMessageSent>)
    requires DistinctBy(messages, Id())
    requires var all := Unclaimed(ByBlock(messages), gate, claimed); batch == all[..Min(DISCOVERY_BATCH_LIMIT, |all|)]
    ensures forall i :: 0 <= i < |batch| ==> batch[i] in messages && batch[i].id !in claimed && BehindGate(batch[i], gate)
    ensures forall i, j :: 0 <= i < j < |batch| ==> batch[i].id != batch[j].id && batch[i].blockNumber <= batch[j].blockNumber
  {
    var sorted := ByBlock(messages);
    SortIsSortedPermutation(messages, Block());
    SortKeepsDistinct(messages, Block(), Id());
    UnclaimedSound(sorted, gate, claimed);
    UnclaimedInOrder(sorted, gate, claimed);
    var all := Unclaimed(sorted, gate, claimed);
    forall i | 0 <= i < |batch| ensures batch[i] in messages && batch[i].id !in claimed && BehindGate(batch[i], gate) {
      assert all[i] in all;
    }
    forall i, j | 0 <= i < j < |batch|
      ensures batch[i].id != batch[j].id && batch[i].blockNumber <= batch[j].blockNumber
    {
      assert Id()(all[i]) != Id()(all[j]) && Block()(all[i]) <= Block()(all[j]);
    }
  }
}
