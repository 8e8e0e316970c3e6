/** The consume metrics of any number of messages processed side by side. */
module Metrics {
  import opened Errors
  import opened Wrappers
  import A = Acknowledgements
  import M = AckMiddleware

  type Handler = string

  datatype Status = Acked | Nacked | Rejected | Skipped | Failed

  /** Counters that were never touched read 0. */
  datatype Counters = Counters(
    received: map<Handler, int>,
    inProcess: map<Handler, int>,
    processed: map<(Handler, Status), int>,
    exceptions: map<(Handler, string), int>)

  function At<K>(m: map<K, int>, k: K): int {
    if k in m then m[k] else 0
  }

  function Plus<K(!new)>(m: map<K, int>, k: K, n: int): (r: map<K, int>)
    ensures forall j :: At(r, j) == if j == k then At(m, j) + n else At(m, j)
  {
    m[k := At(m, k) + n]
  }

  // ----- the status of a processed message -----

  function ByAckStatus(committed: Option<A.AckStatus>): Option<Status> {
    match committed
    case Some(ACKED) => Some(Acked)
    case Some(NACKED) => Some(Nacked)
    case Some(REJECTED) => Some(Rejected)
    case None => None
  }

  /** Looked up by the exact class: an instance of a subclass is not found. */
  function ByException(e: Error): Option<Status> {
    if e.derived then None
    else
      match e.kind
      case AckRequest => Some(Acked)
      case NackRequest => Some(Nacked)
      case RejectRequest => Some(Rejected)
      case SkipRequest => Some(Skipped)
      case _ => None
  }

  /** What `except Exception` has kept; cancellation passes by it. */
  function Caught(raised: Option<Error>): Option<Error> {
    if raised.Some? && raised.value.IsException() then raised else None
  }

  function StatusOf(committed: Option<A.AckStatus>, raised: Option<Error>): Status {
    if committed.Some? then ByAckStatus(committed).value
    else
      match Caught(raised)
      case None => Acked
      case Some(e) => if ByException(e).Some? then ByException(e).value else Failed
  }

  /**
   * A message is counted as acknowledged exactly if it was, or if it was left unsettled and
   * nothing, a cancellation or a plain request to acknowledge came out; as failed exactly if
   * it was left unsettled by any other exception.
   */
  lemma {:induction false} StatusIff(committed: Option<A.AckStatus>, raised: Option<Error>)
    ensures StatusOf(committed, raised) == Acked <==>
      committed == Some(A.ACKED) ||
      (committed.None? &&
         (raised.None? || !raised.value.IsException() || (raised.value.kind.AckRequest? && !raised.value.derived)))
    ensures StatusOf(committed, raised) == Failed <==>
      committed.None? && raised.Some? && raised.value.IsException() &&
      (raised.value.derived || raised.value.kind.OtherHandlerException? || !raised.value.IsHandlerException())
    ensures StatusOf(committed, raised) == Skipped <==>
      committed.None? && raised.Some? && raised.value.kind.SkipRequest? && !raised.value.derived
    ensures StatusOf(committed, raised) == Nacked <==>
      committed == Some(A.NACKED) ||
      (committed.None? && raised.Some? && raised.value.kind.NackRequest? && !raised.value.derived)
    ensures StatusOf(committed, raised) == Rejected <==>
      committed == Some(A.REJECTED) ||
      (committed.None? && raised.Some? && raised.value.kind.RejectRequest? && !raised.value.derived)
  {
  }

  /** The status a message has when the metrics are written: the handler is done, the way out is not. */
  ghost function Meanwhile(
    kind: A.Kind, policy: M.AckPolicy, handler: seq<A.Attempt>, first: bool): Option<A.AckStatus>
  {
    A.Run(kind, A.Initially(kind), M.BeforeExit(policy, handler, first)).committed
  }

  /**
   * For a handler's request the metrics guess what the acknowledgement middleware, which is left later,
   * will do. They are right exactly if the message is settled by then; or else if the request's class is
   * not a subclass, the broker has that operation (a rejection is an acknowledgement with Kafka and MQTT,
   * and MQTT knows nothing negative), and it is carried out.
   */
  lemma {:induction false} PredictsRequestIff(
    kind: A.Kind, policy: M.AckPolicy, handler: seq<A.Attempt>, e: Error, first: bool, last: bool)
    requires e.kind.AckRequest? || e.kind.NackRequest? || e.kind.RejectRequest?
    ensures var meanwhile := Meanwhile(kind, policy, handler, first);
      var settled := A.Run(kind, A.Initially(kind), M.Life(policy, handler, Some(e), first, last)).committed;
      Some(StatusOf(meanwhile, Some(e))) == ByAckStatus(settled) <==>
        meanwhile.Some? ||
        (!policy.ACK_FIRST? && !e.derived &&
         (kind.Plain? || e.kind.AckRequest? || (e.kind.NackRequest? && !kind.Mqtt?)) &&
         (last || A.Tells(kind, M.ExitOp(policy, Some(e)).value) == []))
  {
    M.SettledOnExit(kind, policy, handler, Some(e), first, last);
    if Meanwhile(kind, policy, handler, first).None? {
      M.StartsOpen(kind, M.BeforeExit(policy, handler, first));
    }
  }

  /**
   * A message that was settled from the start, as Kafka's are when the client commits by itself,
   * counts as acked whatever its handler does or raises.
   */
  lemma {:induction false} SettledFromTheStart(kind: A.Kind, attempts: seq<A.Attempt>, raised: Option<Error>)
    requires A.Initially(kind).committed.Some?
    ensures StatusOf(A.Run(kind, A.Initially(kind), attempts).committed, raised) == Acked
  {
    A.SettledStays(kind, A.Initially(kind), attempts);
  }

  // ----- the middleware -----

  class MetricsManager {
    var received: map<Handler, int>
    var inProcess: map<Handler, int>
    var processed: map<(Handler, Status), int>
    var exceptions: map<(Handler, string), int>

    function Now(): Counters
      reads this
    {
      Counters(received, inProcess, processed, exceptions)
    }

    constructor ()
      ensures Now() == Counters(map[], map[], map[], map[])
    {
      received, inProcess, processed, exceptions := map[], map[], map[], map[];
    }
  }

  /** What one message is counted as; messages that are not counted have none. */
  datatype Flight = Flight(handler: Handler, amount: nat)

  function Begun(c: Counters, f: Flight): Counters {
    c.(received := Plus(c.received, f.handler, f.amount), inProcess := Plus(c.inProcess, f.handler, f.amount))
  }

  function Ended(c: Counters, f: Flight, committed: Option<A.AckStatus>, raised: Option<Error>): Counters {
    var e := Caught(raised);
    c.(inProcess := Plus(c.inProcess, f.handler, -(f.amount as int)),
       processed := Plus(c.processed, (f.handler, StatusOf(committed, raised)), f.amount),
       exceptions :=
         if e.Some? && !e.value.IsIgnored() then Plus(c.exceptions, (f.handler, e.value.name), 1) else c.exceptions)
  }

  class PrometheusMiddleware {
    const manager: MetricsManager
    const counted: Option<Flight>

    /** Not counted without a settings provider, and for the answer to a request. */
    constructor (manager: MetricsManager, hasProvider: bool, isResponse: bool, f: Flight)
      ensures this.manager == manager && counted == if hasProvider && !isResponse then Some(f) else None
    {
      this.manager := manager;
      counted := if !hasProvider || isResponse then None else Some(f);
    }

    /** Up to the call of what is inside. */
    method Before()
      modifies manager
      ensures manager.Now() == if counted.Some? then Begun(old(manager.Now()), counted.value) else old(manager.Now())
    {
      if counted.None? {
        return;
      }
      var f := counted.value;
      manager.received := Plus(manager.received, f.handler, f.amount);
      manager.inProcess := Plus(manager.inProcess, f.handler, f.amount);
    }

    /** From its return or exception on; the exception, if any, goes on to the caller. */
    method After(committed: Option<A.AckStatus>, raised: Option<Error>)
      modifies manager
      ensures manager.Now()
           == if counted.Some? then Ended(old(manager.Now()), counted.value, committed, raised) else old(manager.Now())
    {
      if counted.None? {
        return;
      }
      var f := counted.value;
      var err: Option<Error> := None;
      if raised.Some? && raised.value.IsException() {
        err := raised;
        if !raised.value.IsIgnored() {
          manager.exceptions := Plus(manager.exceptions, (f.handler, raised.value.name), 1);
        }
      }
      manager.inProcess := Plus(manager.inProcess, f.handler, -(f.amount as int));
      var status := Acked;
      if committed.Some? || err.Some? {
        var found := ByAckStatus(committed);
        if found.None? {
          found := ByException(err.value);
        }
        status := if found.Some? then found.value else Failed;
      }
      manager.processed := Plus(manager.processed, (f.handler, status), f.amount);
    }
  }

  // ----- messages interleaved -----

  datatype Finished = Finished(flight: Flight, committed: Option<A.AckStatus>, raised: Option<Error>)

  /** The messages between their two halves, in the order they began, and all that have ended. */
  datatype System = System(counters: Counters, inFlight: seq<Flight>, finished: seq<Finished>)

  /** The two halves of a message run without interruption; between them any others may run. */
  datatype Step = Begin(f: Flight) | End(i: nat, committed: Option<A.AckStatus>, raised: Option<Error>)

  ghost predicate Enabled(s: System, step: Step) {
    step.End? ==> step.i < |s.inFlight|
  }

  ghost function Do(s: System, step: Step): System
    requires Enabled(s, step)
  {
    match step
    case Begin(f) => s.(counters := Begun(s.counters, f), inFlight := s.inFlight + [f])
    case End(i, committed, raised) =>
      System(Ended(s.counters, s.inFlight[i], committed, raised),
             s.inFlight[..i] + s.inFlight[i + 1..],
             s.finished + [Finished(s.inFlight[i], committed, raised)])
  }

  const IDLE := System(Counters(map[], map[], map[], map[]), [], [])

  /** `t` can be reached from `s` by the steps. */
  ghost predicate Reaches(s: System, steps: seq<Step>, t: System)
    decreases |steps|
  {
    if steps == [] then s == t else Enabled(s, steps[0]) && Reaches(Do(s, steps[0]), steps[1..], t)
  }

  function InFlight(fs: seq<Flight>, h: Handler): nat {
    if fs == [] then 0 else (if fs[0].handler == h then fs[0].amount else 0) + InFlight(fs[1..], h)
  }

  /** The messages of a handler that ended with a status. */
  function Count(done: seq<Finished>, h: Handler, status: Status): nat {
    if done == [] then 0
    else
      var d := done[|done| - 1];
      Count(done[..|done| - 1], h, status)
        + if d.flight.handler == h && StatusOf(d.committed, d.raised) == status then d.flight.amount else 0
  }

  /** The runs of a handler that ended with an exception worth reporting, by its class. */
  function CountExceptions(done: seq<Finished>, h: Handler, name: string): nat {
    if done == [] then 0
    else
      var d := done[|done| - 1];
      var reported := d.raised.Some? && d.raised.value.IsException() && !d.raised.value.IsIgnored();
      CountExceptions(done[..|done| - 1], h, name)
        + if d.flight.handler == h && reported && d.raised.value.name == name then 1 else 0
  }

  function Processed(c: Counters, h: Handler): int {
    At(c.processed, (h, Acked)) + At(c.processed, (h, Nacked)) + At(c.processed, (h, Rejected))
      + At(c.processed, (h, Skipped)) + At(c.processed, (h, Failed))
  }

  ghost predicate Balanced(s: System, h: Handler) {
    At(s.counters.inProcess, h) == InFlight(s.inFlight, h) &&
    At(s.counters.received, h) - Processed(s.counters, h) == InFlight(s.inFlight, h)
  }

  ghost predicate Tallied(s: System, h: Handler, status: Status, name: string) {
    At(s.counters.processed, (h, status)) == Count(s.finished, h, status) &&
    At(s.counters.exceptions, (h, name)) == CountExceptions(s.finished, h, name)
  }

  lemma {:induction false} InFlightSplits(a: seq<Flight>, b: seq<Flight>, h: Handler)
    ensures InFlight(a + b, h) == InFlight(a, h) + InFlight(b, h)
  {
    if a == [] {
      assert a + b == b;
    } else {
      assert (a + b)[1..] == a[1..] + b;
      InFlightSplits(a[1..], b, h);
    }
  }

  lemma {:induction false} InFlightOne(f: Flight, h: Handler)
    ensures InFlight([f], h) == if f.handler == h then f.amount else 0
  {
    assert [f][1..] == [];
  }

  lemma {:induction false} InFlightWithout(fs: seq<Flight>, i: nat, h: Handler)
    requires i < |fs|
    ensures InFlight(fs, h) == InFlight(fs[..i] + fs[i + 1..], h) + if fs[i].handler == h then fs[i].amount else 0
  {
    InFlightSplits(fs[..i], fs[i + 1..], h);
    InFlightSplits(fs[..i], fs[i..], h);
    assert fs[..i] + fs[i..] == fs;
  }

  lemma {:induction false} ProcessedPlus(c: Counters, h: Handler, g: Handler, status: Status, n: int)
    ensures Processed(c.(processed := Plus(c.processed, (g, status), n)), h)
         == Processed(c, h) + if g == h then n else 0
  {
  }

  lemma {:induction false} StaysBalanced(s: System, step: Step, h: Handler)
    requires Enabled(s, step) && Balanced(s, h)
    ensures Balanced(Do(s, step), h)
  {
    match step {
      case Begin(f) =>
        InFlightSplits(s.inFlight, [f], h);
        InFlightOne(f, h);
      case End(i, committed, raised) =>
        var f := s.inFlight[i];
        InFlightWithout(s.inFlight, i, h);
        ProcessedPlus(s.counters, h, f.handler, StatusOf(committed, raised), f.amount);
    }
  }

  ghost predicate Reported(d: Finished, name: string) {
    d.raised.Some? && d.raised.value.IsException() && !d.raised.value.IsIgnored() && d.raised.value.name == name
  }

  lemma {:induction false} CountLast(done: seq<Finished>, d: Finished, h: Handler, status: Status, name: string)
    ensures Count(done + [d], h, status)
         == Count(done, h, status)
            + if d.flight.handler == h && StatusOf(d.committed, d.raised) == status then d.flight.amount else 0
    ensures CountExceptions(done + [d], h, name)
         == CountExceptions(done, h, name) + if d.flight.handler == h && Reported(d, name) then 1 else 0
  {
    assert (done + [d])[..|done|] == done;
  }

  lemma {:induction false} EndedTallies(c: Counters, d: Finished, h: Handler, status: Status, name: string)
    ensures var e := Ended(c, d.flight, d.committed, d.raised);
      At(e.processed, (h, status)) == At(c.processed, (h, status))
        + (if d.flight.handler == h && StatusOf(d.committed, d.raised) == status then d.flight.amount else 0) &&
      At(e.exceptions, (h, name)) == At(c.exceptions, (h, name))
        + (if d.flight.handler == h && Reported(d, name) then 1 else 0)
  {
  }

  /**
   * The exception counter rises by one, under the exception's class, exactly for an exception that is neither
   * one of the framework's own nor a cancellation or the like.
   */
  lemma {:induction false} ReportsOrdinary(
    c: Counters, f: Flight, committed: Option<A.AckStatus>, raised: Option<Error>, h: Handler, name: string)
    ensures At(Ended(c, f, committed, raised).exceptions, (h, name)) - At(c.exceptions, (h, name))
         == if raised.Some? && raised.value.kind.Ordinary? && raised.value.name == name && f.handler == h then 1 else 0
  {
  }

  lemma {:induction false} StaysTallied(s: System, step: Step, h: Handler, status: Status, name: string)
    requires Enabled(s, step) && Tallied(s, h, status, name)
    ensures Tallied(Do(s, step), h, status, name)
  {
    if step.End? {
      var d := Finished(s.inFlight[step.i], step.committed, step.raised);
      CountLast(s.finished, d, h, status, name);
      EndedTallies(s.counters, d, h, status, name);
    }
  }

  /**
   * However messages interleave, for each handler the gauge is what is in flight, what was received
   * less what was processed under any status is the gauge, each status counter is the number of
   * messages that ended with that status, and each exception counter that of the runs that
   * ended with that exception.
   */
  lemma {:induction false} Conserved(s: System, steps: seq<Step>, t: System, h: Handler, status: Status, name: string)
    requires Reaches(s, steps, t) && Balanced(s, h) && Tallied(s, h, status, name)
    ensures Balanced(t, h) && Tallied(t, h, status, name)
    decreases |steps|
  {
    if steps != [] {
      StaysBalanced(s, steps[0], h);
      StaysTallied(s, steps[0], h, status, name);
      Conserved(Do(s, steps[0]), steps[1..], t, h, status, name);
    }
  }

  lemma {:induction false} NoneInFlight(fs: seq<Flight>, h: Handler)
    requires forall i :: 0 <= i < |fs| ==> fs[i].handler != h
    ensures InFlight(fs, h) == 0
  {
    if fs != [] {
      NoneInFlight(fs[1..], h);
    }
  }

  /** Once nothing of a handler is in flight, its gauge reads 0 again, and all it received is processed. */
  lemma {:induction false} IdleAgain(steps: seq<Step>, t: System, h: Handler)
    requires Reaches(IDLE, steps, t) && forall i :: 0 <= i < |t.inFlight| ==> t.inFlight[i].handler != h
    ensures At(t.counters.inProcess, h) == 0 && At(t.counters.received, h) == Processed(t.counters, h)
  {
    Conserved(IDLE, steps, t, h, Acked, "");
    NoneInFlight(t.inFlight, h);
  }
}
