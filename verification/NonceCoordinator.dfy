/**
 * One chain's nonce stream, shared by relay requests and job broadcasts: submissions queue up and run one at a
 * time, the first reading a seed from the node. ledger is the number of nonces of this wallet the network has
 * taken, which is what the node answers when it is asked for the pending count; this wallet is the only sender.
 */
module NonceCoordinator {
  import opened Wrappers

  /** Who asked for a submission: a relay request or the job of a CCTP message. */
  datatype Task = RelayRequest(id: nat) | JobBroadcast(key: string)

  datatype Flight = Resting | Seeding(task: Task) | Flying(task: Task, nonce: nat)

  /** What the network did: nothing, took the wallet's next nonce, or put the transaction in place of one already taken. */
  datatype Taken = Refused | New | Replacement

  /** resolved is what the caller was told; a broadcast can be taken although it was reported as failed. */
  datatype Landing = Landing(resolved: bool, taken: Taken)

  datatype Stream = Stream(next: Option<nat>, queue: seq<Task>, flight: Flight, ledger: nat)

  datatype Event =
    | Enqueue(task: Task)
    | Start
    | Seeded
    | SeedFailed
    | Land(landing: Landing)
    | Reset

  const EMPTY := Stream(None, [], Resting, 0)

  /** A new transaction has the wallet's next nonce, a replacement one of those already taken. */
  predicate CanLand(landing: Landing, nonce: nat, ledger: nat) {
    match landing.taken
    case Refused => !landing.resolved
    case New => nonce == ledger
    case Replacement => nonce < ledger
  }

  function Step(s: Stream, e: Event): Option<Stream> {
    match e
    case Enqueue(t) => Some(s.(queue := s.queue + [t]))
    case Reset => Some(s.(next := None))
    case Start =>
      if !s.flight.Resting? || s.queue == [] then None
      else
        var rest := s.(queue := s.queue[1..]);
        Some(rest.(flight := if s.next.None? then Seeding(s.queue[0]) else Flying(s.queue[0], s.next.value)))
    case Seeded =>
      if !s.flight.Seeding? then None
      else Some(s.(next := Some(s.ledger), flight := Flying(s.flight.task, s.ledger)))
    case SeedFailed => if !s.flight.Seeding? then None else Some(s.(flight := Resting))
    case Land(landing) =>
      if !s.flight.Flying? || !CanLand(landing, s.flight.nonce, s.ledger) then None
      else
        var landed := s.(flight := Resting, ledger := if landing.taken.New? then s.ledger + 1 else s.ledger);
        Some(if landing.resolved then landed.(next := Some(s.flight.nonce + 1)) else landed)
  }

  function Run(trace: seq<Event>): Option<Stream> {
    if trace == [] then Some(EMPTY)
    else
      var s := Run(trace[..|trace| - 1]);
      if s.None? then None else Step(s.value, trace[|trace| - 1])
  }

  lemma RunExtend(trace: seq<Event>, e: Event)
    requires Run(trace).Some?
    ensures Run(trace + [e]) == Step(Run(trace).value, e)
  {
    assert (trace + [e])[..|trace|] == trace;
  }

  /** What was reached before a run went on. */
  lemma {:induction false} RunsFrom(trace: seq<Event>, more: seq<Event>)
    requires Run(trace + more).Some?
    ensures Run(trace).Some?
  {
    if more == [] {
      assert trace + more == trace;
    } else {
      assert (trace + more)[..|trace + more| - 1] == trace + more[..|more| - 1];
      RunsFrom(trace, more[..|more| - 1]);
    }
  }

  // ----- order -----

  function Enqueued(trace: seq<Event>): seq<Task> {
    if trace == [] then []
    else Enqueued(trace[..|trace| - 1])
         + match trace[|trace| - 1] { case Enqueue(t) => [t] case _ => [] }
  }

  /** The submissions in the order in which they were started. */
  function Started(trace: seq<Event>): seq<Task>
    requires Run(trace).Some?
  {
    if trace == [] then []
    else
      var init := trace[..|trace| - 1];
      Started(init) + if trace[|trace| - 1].Start? then [Run(init).value.queue[0]] else []
  }

  /** Submissions start in the order in which they were made, whoever made them, none twice and none skipped. */
  lemma {:induction false} FirstInFirstOut(trace: seq<Event>)
    requires Run(trace).Some?
    ensures Started(trace) + Run(trace).value.queue == Enqueued(trace)
  {
    if trace != [] {
      var init := trace[..|trace| - 1];
      var s := Run(init).value;
      FirstInFirstOut(init);
      if trace[|trace| - 1].Start? {
        assert s.queue == [s.queue[0]] + s.queue[1..];
      }
    }
  }

  // ----- nonces -----

  /** The nonces of the submissions that resolved since the last seed read. */
  function SinceSeed(trace: seq<Event>): seq<nat>
    requires Run(trace).Some?
  {
    if trace == [] then []
    else
      var init, e := trace[..|trace| - 1], trace[|trace| - 1];
      if e.Seeded? then []
      else SinceSeed(init) + if e.Land? && e.landing.resolved then [Run(init).value.flight.nonce] else []
  }

  /** The stream catches up with the ledger: a seed read, or a replacement that the caller is told about. */
  predicate CatchesUp(e: Event) { e.Seeded? || (e.Land? && e.landing == Landing(true, Replacement)) }

  /** New transactions reported as failed since the stream last caught up. */
  function LostReplies(trace: seq<Event>): nat {
    if trace == [] then 0
    else
      var e := trace[|trace| - 1];
      if CatchesUp(e) then 0
      else LostReplies(trace[..|trace| - 1]) + if e == Land(Landing(false, New)) then 1 else 0
  }

  ghost predicate Consecutive(nonces: seq<nat>, last: int) {
    forall i :: 0 <= i < |nonces| ==> nonces[i] == last - |nonces| + i
  }

  /** The nonce the stream would use next, when it has one. */
  predicate Offers(s: Stream, n: nat) {
    s.next == Some(n) || (s.flight.Flying? && s.flight.nonce == n)
  }

  /**
   * Every nonce the stream offers is the ledger minus the replies lost since it caught up, of which there is at
   * most one; and the nonces of the successes since the seed are consecutive up to it.
   */
  lemma {:induction false} NonceLaw(trace: seq<Event>, n: nat)
    requires Run(trace).Some? && Offers(Run(trace).value, n)
    ensures n + LostReplies(trace) == Run(trace).value.ledger && LostReplies(trace) <= 1
    ensures Consecutive(SinceSeed(trace), n)
  {
    if trace != [] {
      var init, e := trace[..|trace| - 1], trace[|trace| - 1];
      var s := Run(init).value;
      match e
      case Land(landing) =>
        NonceLaw(init, s.flight.nonce);
        if s.next.Some? { NonceLaw(init, s.next.value); }
      case Seeded =>
      case Enqueue(_) => NonceLaw(init, n);
      case Reset => NonceLaw(init, n);
      case Start => NonceLaw(init, n);
      case SeedFailed => NonceLaw(init, n);
    }
  }

  /** With every reply delivered the cached nonce is absent or exactly the number of nonces taken. */
  lemma {:induction false} CachedNonceIsLedger(trace: seq<Event>)
    requires Run(trace).Some? && LostReplies(trace) == 0 && Run(trace).value.next.Some?
    ensures Run(trace).value.next == Some(Run(trace).value.ledger)
  {
    NonceLaw(trace, Run(trace).value.next.value);
  }

  /** After a lost reply nothing that lands takes a new nonce, and only a replacement can be reported as a success. */
  lemma LostReplyBlocksTheStream(trace: seq<Event>, landing: Landing)
    requires Run(trace).Some? && LostReplies(trace) > 0
    requires Run(trace + [Land(landing)]).Some?
    ensures !landing.taken.New? && (landing.resolved ==> landing.taken.Replacement?)
  {
    RunExtend(trace, Land(landing));
    NonceLaw(trace, Run(trace).value.flight.nonce);
  }

  /**
   * However long a stream with a lost reply goes on: until it reads a seed, or replaces the transaction whose
   * reply was lost, every submission is told that it failed, none takes a new nonce and the ledger stays where it was.
   */
  lemma {:induction false} StaysBlocked(trace: seq<Event>, more: seq<Event>)
    requires Run(trace + more).Some? && LostReplies(trace) > 0
    requires forall i :: 0 <= i < |more| ==> !CatchesUp(more[i])
    ensures forall i :: 0 <= i < |more| && more[i].Land? ==> !more[i].landing.resolved && !more[i].landing.taken.New?
    ensures Run(trace).Some? && Run(trace + more).value.ledger == Run(trace).value.ledger
    ensures LostReplies(trace + more) > 0
  {
    RunsFrom(trace, more);
    if more == [] {
      assert trace + more == trace;
    } else {
      var init, e := more[..|more| - 1], more[|more| - 1];
      assert (trace + more)[..|trace + more| - 1] == trace + init;
      StaysBlocked(trace, init);
      if e.Land? {
        assert trace + more == trace + init + [e];
        LostReplyBlocksTheStream(trace + init, e.landing);
      }
    }
  }

  /** Catching up does unblock it: the cached nonce is then the ledger. */
  lemma CatchingUpUnblocks(trace: seq<Event>)
    requires trace != [] && CatchesUp(trace[|trace| - 1]) && Run(trace).Some?
    ensures Run(trace).value.next == Some(Run(trace).value.ledger)
  {
    NonceLaw(trace, Run(trace).value.next.value);
  }

  /** One submission taken by the network and reported as failed is enough to get there. */
  lemma LostReplyHappens(task: Task)
    ensures var trace := [Enqueue(task), Start, Seeded, Land(Landing(false, New))];
            && Run(trace) == Some(Stream(Some(0), [], Resting, 1))
            && LostReplies(trace) == 1
  {
    var a, b, c := [Enqueue(task)], [Enqueue(task), Start], [Enqueue(task), Start, Seeded];
    var trace := c + [Land(Landing(false, New))];
    assert Run(a) == Some(Stream(None, [task], Resting, 0)) by {
      RunExtend([], Enqueue(task));
      assert [] + a == a && [] + [task] == [task];
    }
    assert Run(b) == Some(Stream(None, [], Seeding(task), 0)) by {
      RunExtend(a, Start);
      assert a + [Start] == b && [task][1..] == [];
    }
    assert Run(c) == Some(Stream(Some(0), [], Flying(task, 0), 0)) by {
      RunExtend(b, Seeded);
      assert b + [Seeded] == c;
    }
    RunExtend(c, Land(Landing(false, New)));
    assert trace == [Enqueue(task), Start, Seeded, Land(Landing(false, New))] && trace[..3] == c;
  }

  // ----- resets -----

  /** Nothing but new submissions and further resets. */
  predicate OnlyRequests(more: seq<Event>) { forall i :: 0 <= i < |more| ==> more[i].Enqueue? || more[i].Reset? }

  lemma RequestStep(s: Stream, e: Event)
    requires s.next.None? && (e.Enqueue? || e.Reset?)
    ensures Step(s, e).Some?
    ensures var t := Step(s, e).value; t.next.None? && t.flight == s.flight && t.ledger == s.ledger
  {
  }

  /** A forgotten nonce stays forgotten and the flight goes on, whatever is requested meanwhile. */
  lemma {:induction false} StaysForgotten(trace: seq<Event>, more: seq<Event>)
    requires Run(trace).Some? && Run(trace).value.next.None? && OnlyRequests(more)
    ensures Run(trace + more).Some? && Run(trace + more).value.next.None?
    ensures Run(trace + more).value.flight == Run(trace).value.flight
    ensures Run(trace + more).value.ledger == Run(trace).value.ledger
  {
    if more == [] {
      assert trace + more == trace;
    } else {
      var init, e := more[..|more| - 1], more[|more| - 1];
      StaysForgotten(trace, init);
      RequestStep(Run(trace + init).value, e);
      RunExtend(trace + init, e);
      assert trace + more == trace + init + [e];
    }
  }

  /** Between submissions nothing but requests can happen before the next one starts. */
  lemma {:induction false} RestingWaits(trace: seq<Event>, more: seq<Event>)
    requires Run(trace).Some? && Run(trace).value.flight.Resting? && Run(trace + more).Some?
    requires forall i :: 0 <= i < |more| ==> !more[i].Start?
    ensures OnlyRequests(more) && Run(trace + more).value.flight.Resting?
  {
    if more == [] {
      assert trace + more == trace;
    } else {
      var init := more[..|more| - 1];
      assert (trace + more)[..|trace + more| - 1] == trace + init;
      RunsFrom(trace + init, [more[|more| - 1]]);
      RestingWaits(trace, init);
    }
  }

  /** The last thing that happened is a reset. */
  predicate JustReset(trace: seq<Event>) { trace != [] && trace[|trace| - 1] == Reset }

  /** Reset while nothing is in flight: whatever happens until then, the next submission reads a seed first. */
  lemma IdleResetReseeds(trace: seq<Event>, more: seq<Event>)
    requires JustReset(trace) && Run(trace).Some? && Run(trace).value.flight.Resting?
    requires Run(trace + more + [Start]).Some? && forall i :: 0 <= i < |more| ==> !more[i].Start?
    ensures Run(trace + more + [Start]).value.flight.Seeding?
  {
    RunsFrom(trace + more, [Start]);
    RestingWaits(trace, more);
    StaysForgotten(trace, more);
    RunExtend(trace + more, Start);
  }

  /** Reset while a broadcast is in flight: it is still in force after the landing exactly when that broadcast failed. */
  lemma FlightResetSurvivesFailure(trace: seq<Event>, more: seq<Event>, landing: Landing)
    requires JustReset(trace) && Run(trace).Some? && Run(trace).value.flight.Flying? && OnlyRequests(more)
    requires Run(trace + more + [Land(landing)]).Some?
    ensures Run(trace + more + [Land(landing)]).value.next.None? <==> !landing.resolved
  {
    StaysForgotten(trace, more);
    RunExtend(trace + more, Land(landing));
  }

  /**
   * Reset while the seed is being read: it is lost. The seed is cached when it arrives and still is after the
   * broadcast it was read for, also when that broadcast fails.
   */
  lemma SeedingResetIsLost(trace: seq<Event>, more: seq<Event>, landing: Landing)
    requires JustReset(trace) && Run(trace).Some? && Run(trace).value.flight.Seeding? && OnlyRequests(more)
    requires Run(trace + more + [Seeded]).Some? && Run(trace + more + [Seeded] + [Land(landing)]).Some?
    ensures Run(trace + more + [Seeded]).value.next == Some(Run(trace).value.ledger)
    ensures Run(trace + more + [Seeded] + [Land(landing)]).value.next
         == Some(Run(trace).value.ledger + if landing.resolved then 1 else 0)
  {
    StaysForgotten(trace, more);
    RunExtend(trace + more, Seeded);
    RunExtend(trace + more + [Seeded], Land(landing));
  }

  // ----- the stream as it runs -----

  class ChainStream {
    var next: Option<nat>
    var queue: seq<Task>
    var flight: Flight
    ghost var ledger: nat
    ghost var trace: seq<Event>

    ghost function View(): Stream
      reads this
    {
      Stream(next, queue, flight, ledger)
    }

    ghost predicate Valid()
      reads this
    {
      Run(trace) == Some(View())
    }

    constructor ()
      ensures Valid() && trace == []
    {
      next, queue, flight, ledger, trace := None, [], Resting, 0, [];
    }

    ghost method Record(before: Stream, e: Event)
      requires Run(trace) == Some(before) && Step(before, e) == Some(View())
      modifies this`trace
      ensures Valid() && trace == old(trace) + [e]
    {
      RunExtend(trace, e);
      trace := trace + [e];
    }

    /** withNonce joins the chain's queue. */
    method WithNonce(task: Task)
      requires Valid()
      modifies this
      ensures Valid() && trace == old(trace) + [Enqueue(task)]
    {
      ghost var before := View();
      queue := queue + [task];
      Record(before, Enqueue(task));
    }

    /** The predecessor has settled: take the head and, if no nonce is cached, ask the node first. */
    method RunHead()
      requires Valid() && flight.Resting? && queue != []
      modifies this
      ensures Valid() && trace == old(trace) + [Start]
    {
      ghost var before := View();
      var task := queue[0];
      queue := queue[1..];
      flight := if next.None? then Seeding(task) else Flying(task, next.value);
      Record(before, Start);
    }

    /** The node's answer, or its failure, which rejects the submission and leaves the cache empty. */
    method OnSeed(answer: Option<nat>)
      requires Valid() && flight.Seeding? && (answer.Some? ==> answer.value == ledger)
      modifies this
      ensures Valid() && trace == old(trace) + [if answer.Some? then Seeded else SeedFailed]
    {
      ghost var before := View();
      if answer.None? {
        flight := Resting;
        Record(before, SeedFailed);
        return;
      }
      next := answer;
      flight := Flying(flight.task, answer.value);
      Record(before, Seeded);
    }

    /** The broadcast settled; the nonce advances only when it resolved. */
    method OnSettled(resolved: bool, ghost taken: Taken)
      requires Valid() && flight.Flying? && CanLand(Landing(resolved, taken), flight.nonce, ledger)
      modifies this
      ensures Valid() && trace == old(trace) + [Land(Landing(resolved, taken))]
      ensures next == if resolved then Some(old(flight).nonce + 1) else old(next)
    {
      ghost var before := View();
      if resolved {
        next := Some(flight.nonce + 1);
      }
      flight := Resting;
      ledger := if taken.New? then ledger + 1 else ledger;
      Record(before, Land(Landing(resolved, taken)));
    }

    method ResetStream()
      requires Valid()
      modifies this
      ensures Valid() && trace == old(trace) + [Reset]
    {
      ghost var before := View();
      next := None;
      Record(before, Reset);
    }
  }
}
