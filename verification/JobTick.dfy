/** The background tick of the actor: discovery, the job ticks and the fallback scanner, one after the other. */
module JobTick {
  import opened Wrappers
  import opened Sorting
  import opened Jobs
  import opened Protocol
  import opened RunSafety
  import opened StateMachine
  import opened WorkDiscovery
  import opened LogScan
  import opened FallbackScanner

  lemma CoverPersists(scanner: ChainScanner, claimed: set<string>, more: set<string>)
    requires scanner.Covers(claimed) && claimed <= more
    ensures scanner.Covers(more)
  {
  }

  /** One scanner for each chain, each with its own node. */
  ghost predicate OwnScanners(scanners: seq<ChainScanner>)
  {
    && (forall i, j :: 0 <= i < j < |scanners| ==> scanners[i] != scanners[j])
    && (forall i :: 0 <= i < |scanners| ==> scanners[i].chunkSize >= 1 && Ordered(scanners[i].provider.chain))
  }

  ghost predicate AllCover(scanners: seq<ChainScanner>, claimed: set<string>)
    reads scanners
  {
    forall i :: 0 <= i < |scanners| ==> scanners[i].Covers(claimed)
  }

  lemma AllCoverPersists(scanners: seq<ChainScanner>, claimed: set<string>, more: set<string>)
    requires AllCover(scanners, claimed) && claimed <= more
    ensures AllCover(scanners, more)
  {
    forall i | 0 <= i < |scanners| ensures scanners[i].Covers(more) {
      CoverPersists(scanners[i], claimed, more);
    }
  }

  ghost function States(scanners: seq<ChainScanner>): (states: seq<ScannerState>)
    reads scanners
    ensures |states| == |scanners| && forall i :: 0 <= i < |scanners| ==> states[i] == scanners[i].State()
  {
    if scanners == [] then [] else States(scanners[..|scanners| - 1]) + [scanners[|scanners| - 1].State()]
  }

  /** What the scanners are given in one tick. */
  datatype ScanInput = ScanInput(progress: nat -> Option<Progress>, head: nat -> Option<nat>)

  ghost predicate Ticked(scanner: ChainScanner, input: ScanInput, now: int, ok: bool, was: ScannerState, here: ScannerState) {
    var c := scanner.chain;
    ChainTick(was, input.progress(c.chainId), now, scanner.activateAfterMs, input.head(c.chainId), c.confirmations, ok, here)
  }

  /** The first chains have had their turn, the others are as they were. */
  ghost predicate SoFar(scanners: seq<ChainScanner>, input: ScanInput, times: seq<int>, was: seq<ScannerState>,
                        here: seq<ScannerState>)
  {
    && |was| == |here| == |scanners| && |times| <= |scanners|
    && (forall i :: 0 <= i < |times| ==> Ticked(scanners[i], input, times[i], true, was[i], here[i]))
    && (forall i :: |times| <= i < |scanners| ==> here[i] == was[i])
  }

  /** The chains one after the other; the first that fails ends the scan, and the ones behind it are not touched. */
  ghost predicate ScannedInTurn(scanners: seq<ChainScanner>, input: ScanInput, times: seq<int>, ok: bool,
                                was: seq<ScannerState>, here: seq<ScannerState>)
  {
    if ok then |times| == |scanners| && SoFar(scanners, input, times, was, here)
    else
      && 0 < |times| <= |scanners| == |was| == |here|
      && var last := |times| - 1;
         && Ticked(scanners[last], input, times[last], false, was[last], here[last])
         && SoFar(scanners, input, times[..last], was, here[last := was[last]])
  }

  lemma TurnTaken(scanners: seq<ChainScanner>, input: ScanInput, times: seq<int>, was: seq<ScannerState>,
                  before: seq<ScannerState>, after: seq<ScannerState>, now: int, ok: bool)
    requires SoFar(scanners, input, times, was, before) && |times| < |scanners| == |after|
    requires after == before[|times| := after[|times|]]
    requires Ticked(scanners[|times|], input, now, ok, before[|times|], after[|times|])
    ensures if ok then SoFar(scanners, input, times + [now], was, after)
            else ScannedInTurn(scanners, input, times + [now], false, was, after)
  {
    assert (times + [now])[..|times|] == times;
    assert after[|times| := was[|times|]] == before;
  }

  /** The messages one scanner may claim in its turn: the confirmed ones of its own chain from its first block on. */
  ghost function GainOf(scanner: ChainScanner, input: ScanInput, was: ScannerState, here: ScannerState): set<IndexedMessageSent> {
    TickGains(scanner.chain, scanner.provider.chain, was, here, input.head(scanner.chain.chainId))
  }

  /** What the first n scanners may claim. */
  ghost function Gains(scanners: seq<ChainScanner>, input: ScanInput, was: seq<ScannerState>, here: seq<ScannerState>, n: int)
    : set<IndexedMessageSent>
    requires n <= |scanners| == |was| == |here|
  {
    set i, m | 0 <= i < n && m in GainOf(scanners[i], input, was[i], here[i]) :: m
  }

  lemma GainsJoin(cfg: Config, scanners: seq<ChainScanner>, input: ScanInput, was: seq<ScannerState>, before: seq<ScannerState>,
                  after: seq<ScannerState>, i: nat, received: set<(nat, string)>,
                  first: map<string, Job>, rows: map<string, Job>, more: map<string, Job>)
    requires i < |scanners| == |was| == |before| == |after|
    requires before[i] == was[i] && after == before[i := after[i]]
    requires GainedFrom(cfg, Gains(scanners, input, was, before, i), received, first, rows)
    requires GainedFrom(cfg, GainOf(scanners[i], input, before[i], after[i]), received, rows, more)
    ensures GainedFrom(cfg, Gains(scanners, input, was, after, i + 1), received, first, more)
  {
    var all := Gains(scanners, input, was, after, i + 1);
    forall m | m in Gains(scanners, input, was, before, i) ensures m in all {
      var n :| 0 <= n < i && m in GainOf(scanners[n], input, was[n], before[n]);
      assert before[n] == after[n];
    }
    GainedJoin(cfg, all, Gains(scanners, input, was, before, i), GainOf(scanners[i], input, before[i], after[i]), received,
               first, rows, more);
  }

  /** One chain's turn: the other scanners are not touched and still cover what they covered. */
  method TickOne(actor: Actor, scanners: seq<ChainScanner>, i: nat, input: ScanInput, received: set<(nat, string)>)
    returns (ok: bool, ghost now: int)
    requires actor.Valid() && actor.pending.Idle? && OwnScanners(scanners) && AllCover(scanners, actor.repo.rows.Keys)
    requires i < |scanners|
    modifies actor`now, actor`pending, actor`trace, actor.repo, scanners[i], scanners[i].provider
    ensures actor.Valid() && actor.pending.Idle? && old(actor.trace) <= actor.trace
    ensures GainedFrom(actor.cfg, GainOf(scanners[i], input, old(States(scanners))[i], States(scanners)[i]), received,
                       old(actor.repo.rows), actor.repo.rows)
    ensures AllCover(scanners, actor.repo.rows.Keys)
    ensures States(scanners) == old(States(scanners))[i := States(scanners)[i]]
    ensures Ticked(scanners[i], input, now, ok, old(States(scanners))[i], States(scanners)[i])
  {
    ghost var before := actor.repo.rows.Keys;
    var c := scanners[i].chain;
    ok, now := scanners[i].TickChain(actor, input.progress(c.chainId), input.head(c.chainId), received);
    assert before <= actor.repo.rows.Keys;
    forall j | 0 <= j < |scanners| ensures scanners[j].Covers(actor.repo.rows.Keys) {
      if j != i {
        CoverPersists(scanners[j], before, actor.repo.rows.Keys);
      }
    }
  }

  /** What a scan promises: in which turns its chains went, and what was claimed. */
  datatype ScanPart = Turns | Claims

  ghost predicate PartScanned(p: ScanPart, scanners: seq<ChainScanner>, input: ScanInput, received: set<(nat, string)>,
                              times: seq<int>, ok: bool, was: seq<ScannerState>, here: seq<ScannerState>, cfg: Config,
                              first: map<string, Job>, rows: map<string, Job>)
    requires |times| <= |scanners| == |was| == |here|
  {
    match p
    case Turns => if ok then SoFar(scanners, input, times, was, here) else ScannedInTurn(scanners, input, times, false, was, here)
    case Claims => GainedFrom(cfg, Gains(scanners, input, was, here, |times|), received, first, rows)
  }

  /** The first |times| chains have had their turn, the last of them without success when ok is false. */
  ghost predicate Scanned(scanners: seq<ChainScanner>, input: ScanInput, received: set<(nat, string)>, times: seq<int>,
                          ok: bool, was: seq<ScannerState>, here: seq<ScannerState>, cfg: Config, first: map<string, Job>,
                          rows: map<string, Job>)
  {
    && |times| <= |scanners| == |was| == |here|
    && forall p: ScanPart :: PartScanned(p, scanners, input, received, times, ok, was, here, cfg, first, rows)
  }

  lemma NothingScanned(scanners: seq<ChainScanner>, input: ScanInput, received: set<(nat, string)>, was: seq<ScannerState>,
                       cfg: Config, rows: map<string, Job>)
    requires |was| == |scanners|
    ensures Scanned(scanners, input, received, [], true, was, was, cfg, rows, rows)
  {
  }

  lemma NextScanned(scanners: seq<ChainScanner>, input: ScanInput, received: set<(nat, string)>, times: seq<int>,
                    was: seq<ScannerState>, before: seq<ScannerState>, after: seq<ScannerState>, cfg: Config,
                    first: map<string, Job>, rows: map<string, Job>, more: map<string, Job>, now: int, ok: bool)
    requires Scanned(scanners, input, received, times, true, was, before, cfg, first, rows)
    requires |times| < |scanners| == |after| && after == before[|times| := after[|times|]]
    requires Ticked(scanners[|times|], input, now, ok, before[|times|], after[|times|])
    requires GainedFrom(cfg, GainOf(scanners[|times|], input, before[|times|], after[|times|]), received, rows, more)
    ensures Scanned(scanners, input, received, times + [now], ok, was, after, cfg, first, more)
  {
    assert PartScanned(Turns, scanners, input, received, times, true, was, before, cfg, first, rows);
    assert PartScanned(Claims, scanners, input, received, times, true, was, before, cfg, first, rows);
    TurnTaken(scanners, input, times, was, before, after, now, ok);
    GainsJoin(cfg, scanners, input, was, before, after, |times|, received, first, rows, more);
    forall p: ScanPart ensures PartScanned(p, scanners, input, received, times + [now], ok, was, after, cfg, first, more) {
    }
  }

  /** The next chain's turn in a scan that began with the rows first. */
  method ScanNext(actor: Actor, scanners: seq<ChainScanner>, i: nat, input: ScanInput, received: set<(nat, string)>,
                  ghost times: seq<int>, ghost was: seq<ScannerState>, ghost first: map<string, Job>)
    returns (ok: bool, ghost now: int)
    requires actor.Valid() && actor.pending.Idle? && OwnScanners(scanners) && AllCover(scanners, actor.repo.rows.Keys)
    requires i == |times| < |scanners|
    requires Scanned(scanners, input, received, times, true, was, States(scanners), actor.cfg, first, actor.repo.rows)
    modifies actor`now, actor`pending, actor`trace, actor.repo, scanners[i], scanners[i].provider
    ensures actor.Valid() && actor.pending.Idle? && old(actor.trace) <= actor.trace && AllCover(scanners, actor.repo.rows.Keys)
    ensures Scanned(scanners, input, received, times + [now], ok, was, States(scanners), actor.cfg, first, actor.repo.rows)
  {
    ghost var rows, before := actor.repo.rows, States(scanners);
    ok, now := TickOne(actor, scanners, i, input, received);
    NextScanned(scanners, input, received, times, was, before, States(scanners), actor.cfg, first, rows, actor.repo.rows, now, ok);
  }

  /** The chains one after the other, until one of them fails. */
  method TickScanners(actor: Actor, scanners: seq<ChainScanner>, input: ScanInput, received: set<(nat, string)>)
    returns (ok: bool, ghost times: seq<int>)
    requires actor.Valid() && actor.pending.Idle? && OwnScanners(scanners) && AllCover(scanners, actor.repo.rows.Keys)
    modifies actor`now, actor`pending, actor`trace, actor.repo
    modifies scanners, set s | s in scanners :: s.provider
    ensures actor.Valid() && actor.pending.Idle? && old(actor.trace) <= actor.trace && AllCover(scanners, actor.repo.rows.Keys)
    ensures Scanned(scanners, input, received, times, ok, old(States(scanners)), States(scanners), actor.cfg,
                    old(actor.repo.rows), actor.repo.rows)
    ensures ok ==> |times| == |scanners|
  {
    times := [];
    ghost var was, first := States(scanners), actor.repo.rows;
    NothingScanned(scanners, input, received, was, actor.cfg, first);
    for i := 0 to |scanners|
      invariant actor.Valid() && actor.pending.Idle? && old(actor.trace) <= actor.trace
      invariant AllCover(scanners, actor.repo.rows.Keys) && |times| == i
      invariant Scanned(scanners, input, received, times, true, was, States(scanners), actor.cfg, first, actor.repo.rows)
    {
      var done, now := ScanNext(actor, scanners, i, input, received, times, was, first);
      times := times + [now];
      if !done {
        return false, times;
      }
    }
    return true, times;
  }

  /** The four job ticks: the table they found and the one they left, and what they did in between. */
  datatype MachineDone = MachineDone(order: seq<string>, discovered: map<string, Job>, log: TickLog, afterJobs: map<string, Job>,
                                     ok: bool)

  /** What the job ticks promise: the first two of them, the last two, and all of them about every row. */
  datatype JobPart = Waiting | Sending | Identity

  ghost predicate PartDone(p: JobPart, m: MachineDone, cfg: Config, w: World) {
    match p
    case Waiting => WaitingPart(m.log, cfg, w, m.order, m.discovered)
    case Sending => SendingPart(m.log, cfg, w, m.order, m.afterJobs, m.ok)
    case Identity => IdentityKept(m.discovered, m.afterJobs) && m.discovered.Keys == m.afterJobs.Keys
  }

  ghost predicate MachineRan(m: MachineDone, cfg: Config, w: World) { forall p: JobPart :: PartDone(p, m, cfg, w) }

  /** What the parts of a tick left behind. */
  datatype TickDone = TickDone(jobs: MachineDone, scansOk: bool, times: seq<int>)

  /** The four job ticks on the table discovery left, then, unless they failed, the scanners. */
  ghost predicate RanInTurn(d: TickDone, cfg: Config, w: World, scanners: seq<ChainScanner>, input: ScanInput,
                            received: set<(nat, string)>, rows: map<string, Job>, was: seq<ScannerState>, here: seq<ScannerState>)
  {
    && MachineRan(d.jobs, cfg, w)
    && Scanned(scanners, input, received, d.times, d.scansOk, was, here, cfg, d.jobs.afterJobs, rows)
    && if d.jobs.ok then d.scansOk ==> |d.times| == |scanners| else d.times == []
  }

  lemma RunKeepsIdentity(cfg: Config, trace: seq<Event>, was: Sys, later: seq<Event>, now: Sys)
    requires trace <= later && Run(cfg, trace) == Some(was) && Run(cfg, later) == Some(now)
    ensures IdentityKept(was.jobs, now.jobs)
  {
    assert later[..|trace|] == trace && later[..|later|] == later;
    forall k | k in was.jobs ensures k in now.jobs && SameIdentity(was.jobs[k], now.jobs[k]) {
      RowsPersist(cfg, later, |trace|, |later|, k);
    }
  }

  /** The job ticks drop no row, and every row stays the job it is. */
  method RunMachine(actor: Actor, machine: CctpStateMachine, w: World) returns (ok: bool, ghost m: MachineDone)
    requires machine.actor == actor && actor.Valid() && actor.pending.Idle?
    modifies actor`now, actor`pending, actor`trace, actor.repo`rows
    ensures actor.Valid() && actor.pending.Idle? && old(actor.trace) <= actor.trace
    ensures MachineRan(m, actor.cfg, w) && m.ok == ok
    ensures m.order == actor.repo.order && m.discovered == old(actor.repo.rows) && m.afterJobs == actor.repo.rows
  {
    ghost var before, s := actor.trace, actor.View();
    ghost var log;
    ok, log := machine.Tick(w);
    RunKeepsIdentity(actor.cfg, before, s, actor.trace, actor.View());
    m := MachineDone(actor.repo.order, s.jobs, log, actor.repo.rows, ok);
  }

  /** The scanners after job ticks that did not fail. */
  method RunScanners(actor: Actor, scanners: seq<ChainScanner>, w: World, input: ScanInput, received: set<(nat, string)>,
                     ok: bool, ghost m: MachineDone)
    returns (ghost d: TickDone)
    requires actor.Valid() && actor.pending.Idle? && MachineRan(m, actor.cfg, w) && m.ok == ok
    requires m.afterJobs == actor.repo.rows
    requires OwnScanners(scanners) && AllCover(scanners, actor.repo.rows.Keys)
    modifies actor`now, actor`pending, actor`trace, actor.repo
    modifies scanners, set s | s in scanners :: s.provider
    ensures actor.Valid() && actor.pending.Idle? && old(actor.trace) <= actor.trace
    ensures AllCover(scanners, actor.repo.rows.Keys) && d.jobs == m
    ensures RanInTurn(d, actor.cfg, w, scanners, input, received, actor.repo.rows, old(States(scanners)), States(scanners))
  {
    d := TickDone(m, true, []);
    NothingScanned(scanners, input, received, States(scanners), actor.cfg, actor.repo.rows);
    if ok {
      var scansOk, times := TickScanners(actor, scanners, input, received);
      d := TickDone(m, scansOk, times);
    }
  }

  method RunMachineAndScanners(actor: Actor, machine: CctpStateMachine, scanners: seq<ChainScanner>, w: World,
                               input: ScanInput, received: set<(nat, string)>)
    returns (ghost d: TickDone)
    requires machine.actor == actor && actor.Valid() && actor.pending.Idle?
    requires OwnScanners(scanners) && AllCover(scanners, actor.repo.rows.Keys)
    modifies actor`now, actor`pending, actor`trace, actor.repo
    modifies scanners, set s | s in scanners :: s.provider
    ensures actor.Valid() && actor.pending.Idle? && old(actor.trace) <= actor.trace
    ensures AllCover(scanners, actor.repo.rows.Keys)
    ensures d.jobs.order == old(actor.repo.order) && d.jobs.discovered == old(actor.repo.rows)
    ensures RanInTurn(d, actor.cfg, w, scanners, input, received, actor.repo.rows, old(States(scanners)), States(scanners))
  {
    ghost var was := States(scanners);
    var ok, m := RunMachine(actor, machine, w);
    assert States(scanners) == was;
    d := RunScanners(actor, scanners, w, input, received, ok, m);
  }

  /**
   * Whatever the nodes, Iris and the watcher answer, a whole tick claims the discovery batch, runs the job ticks and the
   * scanners in turn, is a run of the protocol, and every scanner still misses nothing behind its cursor, also when one
   * of the parts fails half-way.
   */
  method RunJobTick(actor: Actor, machine: CctpStateMachine, scanners: seq<ChainScanner>, messages: seq<IndexedMessageSent>,
                    indexed: seq<ChainProgress>, confirmations: map<nat, nat>, received: set<(nat, string)>,
                    w: World, input: ScanInput)
    returns (ghost gate: map<nat, nat>, ghost d: TickDone)
    requires machine.actor == actor && actor.Valid() && actor.pending.Idle?
    requires OwnScanners(scanners) && AllCover(scanners, actor.repo.rows.Keys)
    requires forall m :: m in messages ==> FaithfulRow(m)
    requires DistinctBy(messages, Id())
    modifies actor`now, actor`pending, actor`trace, actor.repo
    modifies scanners, set s | s in scanners :: s.provider
    ensures actor.Valid() && actor.pending.Idle? && old(actor.trace) <= actor.trace
    ensures AllCover(scanners, actor.repo.rows.Keys)
    ensures GateOf(indexed, confirmations, gate)
    ensures d.jobs.discovered.Keys == NextKeys(ByBlock(messages), gate, old(actor.repo.rows.Keys))
    ensures GainedFrom(actor.cfg, All(messages), received, old(actor.repo.rows), d.jobs.discovered)
    ensures RanInTurn(d, actor.cfg, w, scanners, input, received, actor.repo.rows, old(States(scanners)), States(scanners))
  {
    ghost var before := actor.repo.rows.Keys;
    var _, passed := DiscoverWork(actor, messages, indexed, confirmations, received);
    gate := passed;
    AllCoverPersists(scanners, before, actor.repo.rows.Keys);
    assert States(scanners) == old(States(scanners));
    var done := RunMachineAndScanners(actor, machine, scanners, w, input, received);
    d := done;
  }

  // ----- what a tick leaves in the table -----

  /** The row was claimed from a log of this scanner's chain that is behind the confirmation depth. */
  ghost predicate ConfirmedRow(scanner: ChainScanner, head: Option<nat>, from: int, row: Job) {
    && head.Some? && from <= row.sourceBlock <= head.value - scanner.chain.confirmations
    && exists l :: l in scanner.provider.chain && ToIndexedShape(scanner.chain.chainId, l).Some?
                   && RowOf(ToIndexedShape(scanner.chain.chainId, l).value, row)
  }

  lemma ConfirmedClaim(scanner: ChainScanner, head: Option<nat>, was: ScannerState, here: ScannerState, m: IndexedMessageSent,
                       row: Job)
    requires m in TickGains(scanner.chain, scanner.provider.chain, was, here, head) && RowOf(m, row)
    ensures here.active && ConfirmedRow(scanner, head, FirstBlock(was, here), row)
  {
    var c := scanner.chain;
    ConfirmedExactly(c.chainId, scanner.provider.chain, FirstBlock(was, here), head, c.confirmations, m);
  }

  lemma GainIsConfirmed(cfg: Config, scanners: seq<ChainScanner>, input: ScanInput, received: set<(nat, string)>,
                        before: map<string, Job>, rows: map<string, Job>, was: seq<ScannerState>, here: seq<ScannerState>,
                        n: nat, k: string)
    returns (i: nat)
    requires n <= |scanners| == |was| == |here| && k in rows && k !in before
    requires GainedFrom(cfg, Gains(scanners, input, was, here, n), received, before, rows)
    ensures i < n && here[i].active
    ensures ConfirmedRow(scanners[i], input.head(scanners[i].chain.chainId), FirstBlock(was[i], here[i]), rows[k])
  {
    var gains := Gains(scanners, input, was, here, n);
    assert ClaimOf(cfg, gains, received, k, rows);
    var m :| m in gains && m.id == k && ClaimedAs(cfg, m, received, rows[k]);
    ClaimCarriesMessage(cfg, m, received, rows[k]);
    i :| 0 <= i < n && m in GainOf(scanners[i], input, was[i], here[i]);
    ConfirmedClaim(scanners[i], input.head(scanners[i].chain.chainId), was[i], here[i], m, rows[k]);
  }

  /** Every row that the scanners of a tick insert is of a confirmed block of one of their chains, not scanned before. */
  lemma ScannerClaimsAreConfirmed(d: TickDone, cfg: Config, w: World, scanners: seq<ChainScanner>, input: ScanInput,
                                  received: set<(nat, string)>, rows: map<string, Job>, was: seq<ScannerState>,
                                  here: seq<ScannerState>, k: string)
    requires RanInTurn(d, cfg, w, scanners, input, received, rows, was, here) && k in rows && k !in d.jobs.afterJobs
    ensures exists i :: 0 <= i < |d.times| <= |scanners| == |was| == |here| && here[i].active
              && ConfirmedRow(scanners[i], input.head(scanners[i].chain.chainId), FirstBlock(was[i], here[i]), rows[k])
  {
    assert PartScanned(Claims, scanners, input, received, d.times, d.scansOk, was, here, cfg, d.jobs.afterJobs, rows);
    var i := GainIsConfirmed(cfg, scanners, input, received, d.jobs.afterJobs, rows, was, here, |d.times|, k);
  }

  /** The messages on the chains of the scanners. */
  ghost function Known(scanners: seq<ChainScanner>): set<IndexedMessageSent> {
    set i, m | 0 <= i < |scanners| && m in Shapes(scanners[i].chain.chainId, scanners[i].provider.chain) :: m
  }

  /** A transaction hash and a log index name one log of one chain. */
  ghost predicate UniqueLogs(scanners: seq<ChainScanner>) {
    forall i, j, l, other ::
      0 <= i < |scanners| && 0 <= j < |scanners| && l in scanners[i].provider.chain && other in scanners[j].provider.chain ==>
        l.transactionHash == other.transactionHash && l.index == other.index ==> i == j && l == other
  }

  lemma LogOf(scanners: seq<ChainScanner>, m: IndexedMessageSent) returns (i: nat, l: Log)
    requires m in Known(scanners)
    ensures i < |scanners| && l in scanners[i].provider.chain
    ensures ToIndexedShape(scanners[i].chain.chainId, l) == Some(m) && m.id == DedupKey(l)
  {
    i :| 0 <= i < |scanners| && m in Shapes(scanners[i].chain.chainId, scanners[i].provider.chain);
    l :| l in scanners[i].provider.chain && ToIndexedShape(scanners[i].chain.chainId, l) == Some(m);
  }

  lemma KnownIdsDiffer(scanners: seq<ChainScanner>)
    requires UniqueLogs(scanners)
    ensures IdsDiffer(Known(scanners))
  {
    forall m, n | m in Known(scanners) && n in Known(scanners) && m.id == n.id ensures m == n {
      var i, l := LogOf(scanners, m);
      var j, other := LogOf(scanners, n);
      DedupKeyInjective(l, other);
    }
  }

  lemma GainsAreKnown(scanners: seq<ChainScanner>, input: ScanInput, was: seq<ScannerState>, here: seq<ScannerState>, n: nat)
    requires n <= |scanners| == |was| == |here|
    ensures Gains(scanners, input, was, here, n) <= Known(scanners)
  {
    forall m | m in Gains(scanners, input, was, here, n) ensures m in Known(scanners) {
      var i :| 0 <= i < n && m in GainOf(scanners[i], input, was[i], here[i]);
      var c := scanners[i].chain;
      ConfirmedExactly(c.chainId, scanners[i].provider.chain, FirstBlock(was[i], here[i]), input.head(c.chainId), c.confirmations, m);
      assert m in Shapes(c.chainId, scanners[i].provider.chain);
    }
  }

  /**
   * When the watcher indexes the logs of these chains as they are and no two of them share their id, every row under
   * the id of a log stays that log's own message through a whole tick.
   */
  lemma RowsStayGenuine(d: TickDone, cfg: Config, w: World, scanners: seq<ChainScanner>, input: ScanInput,
                        messages: set<IndexedMessageSent>, received: set<(nat, string)>, first: map<string, Job>,
                        rows: map<string, Job>, was: seq<ScannerState>, here: seq<ScannerState>)
    requires UniqueLogs(scanners) && Honest(messages, Known(scanners)) && Genuine(Known(scanners), first)
    requires GainedFrom(cfg, messages, received, first, d.jobs.discovered)
    requires RanInTurn(d, cfg, w, scanners, input, received, rows, was, here)
    ensures Genuine(Known(scanners), rows)
  {
    var known := Known(scanners);
    GainedStaysGenuine(cfg, messages, known, received, first, d.jobs.discovered);
    assert PartDone(Identity, d.jobs, cfg, w);
    assert PartScanned(Claims, scanners, input, received, d.times, d.scansOk, was, here, cfg, d.jobs.afterJobs, rows);
    KeptStaysGenuine(known, d.jobs.discovered, d.jobs.afterJobs);
    KnownIdsDiffer(scanners);
    GainsAreKnown(scanners, input, was, here, |d.times|);
    GainedStaysGenuine(cfg, Gains(scanners, input, was, here, |d.times|), known, received, d.jobs.afterJobs, rows);
  }

  /**
   * No gap: below the scanner's cursor and below the watcher's head every parseable message is either
   * indexed by the watcher or has a job row with its own bytes, transaction, block and domains, provided the watcher
   * did not fall back behind the block this activation started from.
   */
  lemma NoGap(scanner: ChainScanner, rows: map<string, Job>, lastIndexed: int, l: Log)
    requires scanner.Covers(rows.Keys) && (scanner.cursor.Some? ==> scanner.base <= lastIndexed)
    requires Genuine(Shapes(scanner.chain.chainId, scanner.provider.chain), rows)
    requires l in scanner.provider.chain && ToIndexedShape(scanner.chain.chainId, l).Some?
    requires l.blockNumber < Max(lastIndexed + 1, if scanner.cursor.Some? then scanner.cursor.value else 0)
    ensures l.blockNumber <= lastIndexed
         || (DedupKey(l) in rows && RowOf(ToIndexedShape(scanner.chain.chainId, l).value, rows[DedupKey(l)]))
  {
    if l.blockNumber > lastIndexed {
      var m := ToIndexedShape(scanner.chain.chainId, l).value;
      assert m in Shapes(scanner.chain.chainId, scanner.provider.chain) && m.id in rows;
    }
  }

  /** The windows of an activation are back to back, so no block of theirs is scanned twice or skipped. */
  lemma WindowsTileTheChain(scanner: ChainScanner, claimed: set<string>, block: int)
    requires scanner.Covers(claimed) && scanner.cursor.Some?
    ensures scanner.base < block < scanner.cursor.value <==>
            exists i :: 0 <= i < |scanner.windows| && scanner.windows[i].0 <= block <= scanner.windows[i].1
    ensures forall i, j :: 0 <= i < j < |scanner.windows| ==> scanner.windows[i].1 < scanner.windows[j].0
  {
    EachBlockOnce(scanner.windows, scanner.base + 1, scanner.cursor.value - 1, block);
  }
}
