/** The acknowledgement middleware: how a message is settled in a subscriber, by policy, exception and handler. */
module AckMiddleware {
  import opened Acknowledgements
  import opened Errors
  import opened Wrappers
  import P = Processing

  datatype AckPolicy = ACK_FIRST | ACK | REJECT_ON_ERROR | NACK_ON_ERROR

  /** What is done on the way out, for the exception shown. */
  function ExitOp(policy: AckPolicy, seen: Option<Error>): Option<Op> {
    if policy.ACK_FIRST? then None
    else if seen.None? then Some(Op.Ack)
    else
      match seen.value.kind
      case AckRequest => Some(Op.Ack)
      case NackRequest => Some(Op.Nack)
      case RejectRequest => Some(Op.Reject)
      case SkipRequest => None
      case OtherHandlerException => None
      case Cancelled => None
      case _ => match policy
                case REJECT_ON_ERROR => Some(Op.Reject)
                case NACK_ON_ERROR => Some(Op.Nack)
                case _ => Some(Op.Ack)
  }

  function ExitLeave(policy: AckPolicy, seen: Option<Error>): P.Leave {
    if !policy.ACK_FIRST? && seen.Some? && seen.value.IsHandlerException() then P.Suppress else P.Pass
  }

  class AcknowledgementMiddleware {
    const policy: AckPolicy
    var message: StreamMessage?

    constructor (policy: AckPolicy)
      ensures this.policy == policy && message == null
    {
      this.policy, message := policy, null;
    }

    /** What raises here is only logged. */
    method ConsumeScope(m: StreamMessage, accepted: bool)
      modifies this, m
      ensures message == m
      ensures m.Now()
           == if policy.ACK_FIRST? then Step(m.kind, old(m.Now()), Attempt(Op.Ack, accepted)) else old(m.Now())
    {
      message := m;
      if policy.ACK_FIRST? {
        var _ := m.Ack(accepted);
      }
    }

    method Exit(seen: Option<Error>, accepted: bool) returns (suppress: bool)
      modifies message
      ensures suppress == ExitLeave(policy, seen).Suppress?
      ensures message != null ==>
        message.Now() == if ExitOp(policy, seen).Some?
                         then Step(message.kind, old(message.Now()), Attempt(ExitOp(policy, seen).value, accepted))
                         else old(message.Now())
    {
      if policy.ACK_FIRST? {
        return false;
      }
      if seen.None? {
        Try(Op.Ack, accepted);
        return false;
      }
      var e := seen.value;
      if e.IsHandlerException() {
        match e.kind {
          case AckRequest => Try(Op.Ack, accepted);
          case NackRequest => Try(Op.Nack, accepted);
          case RejectRequest => Try(Op.Reject, accepted);
          case _ =>
        }
        return true;
      }
      if e.kind.Cancelled? {
        return false;
      }
      match policy {
        case REJECT_ON_ERROR => Try(Op.Reject, accepted);
        case NACK_ON_ERROR => Try(Op.Nack, accepted);
        case ACK => Try(Op.Ack, accepted);
      }
      return false;
    }

    method Try(op: Op, accepted: bool)
      modifies message
      ensures message != null ==> message.Now() == Step(message.kind, old(message.Now()), Attempt(op, accepted))
    {
      if message != null {
        var _ := message.Settle(op, accepted);
      }
    }
  }

  // ----- a message's life in a subscriber -----

  function Optional(op: Option<Op>, accepted: bool): seq<Attempt> {
    if op.Some? then [Attempt(op.value, accepted)] else []
  }

  /** The attempts on a message whose scope was reached, until its handler is done. */
  function BeforeExit(policy: AckPolicy, handler: seq<Attempt>, first: bool): seq<Attempt> {
    Optional(if policy.ACK_FIRST? then Some(Op.Ack) else None, first) + handler
  }

  /** All of them, with the one on the way out. */
  function Life(policy: AckPolicy, handler: seq<Attempt>, seen: Option<Error>, first: bool, last: bool): seq<Attempt> {
    BeforeExit(policy, handler, first) + Optional(ExitOp(policy, seen), last)
  }

  /** What is settled before the exit stays; otherwise the exit's own attempt decides. */
  lemma {:induction false} SettledOnExit(
    kind: Kind, policy: AckPolicy, handler: seq<Attempt>, seen: Option<Error>, first: bool, last: bool)
    ensures var before := Run(kind, Initially(kind), BeforeExit(policy, handler, first));
      Run(kind, Initially(kind), Life(policy, handler, seen, first, last))
        == if before.committed.Some? || ExitOp(policy, seen).None? then before
           else Step(kind, before, Attempt(ExitOp(policy, seen).value, last))
  {
    var before := Run(kind, Initially(kind), BeforeExit(policy, handler, first));
    var exit := Optional(ExitOp(policy, seen), last);
    RunSplits(kind, Initially(kind), BeforeExit(policy, handler, first), exit);
    if exit != [] {
      assert exit[1..] == [];
      assert Run(kind, Step(kind, before, exit[0]), []) == Step(kind, before, exit[0]);
    }
  }

  /** No attempt takes effect. */
  ghost predicate Idle(kind: Kind, attempts: seq<Attempt>) {
    forall i :: 0 <= i < |attempts| ==> !Effective(kind, attempts[i])
  }

  /** A message open after some attempts was open from the start, and none of them took effect. */
  lemma {:induction false} StartsOpen(kind: Kind, attempts: seq<Attempt>)
    ensures Run(kind, Initially(kind), attempts).committed.None? <==>
      Initially(kind).committed.None? && Idle(kind, attempts)
    ensures Run(kind, Initially(kind), attempts).committed.None?
        ==> Run(kind, Initially(kind), attempts) == Initially(kind)
  {
    if Initially(kind).committed.Some? {
      SettledStays(kind, Initially(kind), attempts);
    } else {
      var k := FirstEffective(kind, attempts);
      FirstDecides(kind, Initially(kind), attempts, k);
    }
  }

  /**
   * The middleware stands first in the stack, so it is shown what the ones inside it leave; it hides
   * handler requests, and everything else it is shown comes out.
   */
  lemma {:induction false} OutcomeUnderPolicy(policy: AckPolicy, ms: seq<P.Middleware>, work: Outcome<P.Reply>)
    requires ms != [] && ms[0].enter.None? && forall seen :: ms[0].leave(seen) == ExitLeave(policy, seen)
    ensures var seen := P.Left(P.Entered(ms[1..]), P.FaultOf(work));
      P.Bracket(ms, work, Done(P.Nothing))
        == if seen.Some? && (policy.ACK_FIRST? || !seen.value.IsHandlerException()) then Raised(seen.value)
           else if work.Done? then work else Done(P.Nothing)
  {
    assert P.Entered(ms)[1..] == P.Entered(ms[1..]);
  }

  /**
   * What the handler settled itself stays, whatever the policy would do on the way out; it comes first unless
   * the message was acknowledged before it, or settled from the start.
   */
  lemma {:induction false} HandlerWins(
    kind: Kind, policy: AckPolicy, handler: seq<Attempt>, seen: Option<Error>, first: bool, last: bool, k: nat)
    requires Initially(kind).committed.None? && (policy.ACK_FIRST? ==> !Effective(kind, Attempt(Op.Ack, first)))
    requires k < |handler| && Effective(kind, handler[k]) && forall i :: 0 <= i < k ==> !Effective(kind, handler[i])
    ensures Run(kind, Initially(kind), Life(policy, handler, seen, first, last))
         == Settling(Records(kind, handler[k].op), Tells(kind, handler[k].op))
  {
    var initial := Optional(if policy.ACK_FIRST? then Some(Op.Ack) else None, first);
    RunSplits(kind, Initially(kind), initial, handler);
    StartsOpen(kind, initial);
    FirstDecides(kind, Initially(kind), handler, k);
    SettledOnExit(kind, policy, handler, seen, first, last);
    assert [] + Tells(kind, handler[k].op) == Tells(kind, handler[k].op);
  }

  /** Nobody has settled the message when the middleware is left. */
  ghost predicate LeftOpen(kind: Kind, policy: AckPolicy, handler: seq<Attempt>, first: bool) {
    Initially(kind).committed.None? && (policy.ACK_FIRST? ==> !Effective(kind, Attempt(Op.Ack, first))) &&
    Idle(kind, handler)
  }

  lemma {:induction false} IdleAfter(kind: Kind, a: Attempt, rest: seq<Attempt>)
    ensures Idle(kind, [a] + rest) <==> !Effective(kind, a) && Idle(kind, rest)
  {
    if Idle(kind, [a] + rest) {
      assert !Effective(kind, ([a] + rest)[0]);
      forall i | 0 <= i < |rest| ensures !Effective(kind, rest[i]) {
        assert ([a] + rest)[i + 1] == rest[i];
      }
    }
  }

  lemma {:induction false} LeftOpenIff(kind: Kind, policy: AckPolicy, handler: seq<Attempt>, first: bool)
    ensures LeftOpen(kind, policy, handler, first)
       <==> Run(kind, Initially(kind), BeforeExit(policy, handler, first)).committed.None?
    ensures LeftOpen(kind, policy, handler, first)
        ==> Run(kind, Initially(kind), BeforeExit(policy, handler, first)) == Initially(kind)
  {
    StartsOpen(kind, BeforeExit(policy, handler, first));
    if policy.ACK_FIRST? {
      IdleAfter(kind, Attempt(Op.Ack, first), handler);
    } else {
      assert [] + handler == handler;
    }
  }

  /** A message whose handler left it alone is settled by the policy, or by nobody. */
  lemma {:induction false} PolicySettles(
    kind: Kind, policy: AckPolicy, handler: seq<Attempt>, seen: Option<Error>, first: bool, last: bool)
    requires Initially(kind).committed.None?
    requires Idle(kind, handler)
    ensures Run(kind, Initially(kind), Life(policy, handler, seen, first, last)).committed
         == if policy.ACK_FIRST? then (if Effective(kind, Attempt(Op.Ack, first)) then Some(ACKED) else None)
            else if ExitOp(policy, seen).Some? && Effective(kind, Attempt(ExitOp(policy, seen).value, last))
            then Records(kind, ExitOp(policy, seen).value) else None
  {
    SettledOnExit(kind, policy, handler, seen, first, last);
    if policy.ACK_FIRST? && Effective(kind, Attempt(Op.Ack, first)) {
      assert BeforeExit(policy, handler, first)[0] == Attempt(Op.Ack, first);
      FirstDecides(kind, Initially(kind), BeforeExit(policy, handler, first), 0);
    } else {
      LeftOpenIff(kind, policy, handler, first);
    }
  }

  /** Errors that are neither a request of the handler nor a cancellation. */
  predicate Failed(seen: Option<Error>) {
    seen.Some? && !seen.value.IsHandlerException() && !seen.value.kind.Cancelled?
  }

  /** Which policies and errors acknowledge, and which reject or nack. */
  predicate AsksAck(policy: AckPolicy, seen: Option<Error>) {
    !policy.ACK_FIRST? && (seen.None? || seen.value.kind.AckRequest? || (Failed(seen) && policy.ACK?))
  }

  predicate AsksNack(policy: AckPolicy, seen: Option<Error>) {
    !policy.ACK_FIRST? && seen.Some? && (seen.value.kind.NackRequest? || (Failed(seen) && policy.NACK_ON_ERROR?))
  }

  predicate AsksReject(policy: AckPolicy, seen: Option<Error>) {
    !policy.ACK_FIRST? && seen.Some? && (seen.value.kind.RejectRequest? || (Failed(seen) && policy.REJECT_ON_ERROR?))
  }

  lemma {:induction false} AsksIff(policy: AckPolicy, seen: Option<Error>)
    ensures ExitOp(policy, seen) == Some(Op.Ack) <==> AsksAck(policy, seen)
    ensures ExitOp(policy, seen) == Some(Op.Nack) <==> AsksNack(policy, seen)
    ensures ExitOp(policy, seen) == Some(Op.Reject) <==> AsksReject(policy, seen)
  {
  }

  /** Whether the broker has to accept an acknowledgement of the message, and a negative one. */
  predicate AckIsTold(kind: Kind) {
    kind.KafkaAckable? || (kind.Confluent? && kind.isManual) || (kind.Mqtt? && !kind.atMostOnce)
  }

  predicate NackIsTold(kind: Kind) {
    kind.KafkaAckable? || (kind.Confluent? && kind.isManual && kind.located)
  }

  /** One attempt on an open message. */
  function Attempted(kind: Kind, op: Op, accepted: bool): Option<AckStatus> {
    if Records(kind, op).Some? && (accepted || Tells(kind, op) == []) then Records(kind, op) else None
  }

  lemma {:induction false} AttemptTable(kind: Kind, op: Op, accepted: bool)
    ensures Attempted(kind, op, accepted) == Some(ACKED) <==>
      (op.Ack? || (op.Reject? && !kind.Plain? && !kind.Kafka?)) && (accepted || !AckIsTold(kind))
    ensures Attempted(kind, op, accepted) == Some(NACKED) <==>
      op.Nack? && !kind.Mqtt? && (accepted || !NackIsTold(kind))
    ensures Attempted(kind, op, accepted) == Some(REJECTED) <==> op.Reject? && (kind.Plain? || kind.Kafka?)
  {
  }

  /** The status of a message at the end of its life in a subscriber. */
  ghost function FinalStatus(
    kind: Kind, policy: AckPolicy, handler: seq<Attempt>, seen: Option<Error>, first: bool, last: bool):
    Option<AckStatus>
  {
    Run(kind, Initially(kind), Life(policy, handler, seen, first, last)).committed
  }

  /**
   * Which status each broker's message, left open, ends with: what policy and error ask for, where
   * Kafka and MQTT acknowledge instead of rejecting, MQTT nacks nothing, and an attempt that the broker
   * has to accept may fail.
   */
  lemma {:induction false} StatusTable(
    kind: Kind, policy: AckPolicy, handler: seq<Attempt>, seen: Option<Error>, first: bool, last: bool)
    requires LeftOpen(kind, policy, handler, first)
    ensures FinalStatus(kind, policy, handler, seen, first, last) == Some(ACKED) <==>
      (AsksAck(policy, seen) || (AsksReject(policy, seen) && !kind.Plain?)) && (last || !AckIsTold(kind))
    ensures FinalStatus(kind, policy, handler, seen, first, last) == Some(NACKED) <==>
      AsksNack(policy, seen) && !kind.Mqtt? && (last || !NackIsTold(kind))
    ensures FinalStatus(kind, policy, handler, seen, first, last) == Some(REJECTED) <==>
      AsksReject(policy, seen) && kind.Plain?
  {
    PolicySettles(kind, policy, handler, seen, first, last);
    AsksIff(policy, seen);
    var op := ExitOp(policy, seen);
    if op.Some? {
      AttemptTable(kind, op.value, last);
    }
  }

  /**
   * A reached message is left unsettled exactly if nobody's attempt took effect: not a first one, not the
   * handler's, and on the way out nothing was asked for, or the attempt failed.
   */
  lemma {:induction false} UnsettledIff(
    kind: Kind, policy: AckPolicy, handler: seq<Attempt>, seen: Option<Error>, first: bool, last: bool)
    ensures FinalStatus(kind, policy, handler, seen, first, last).None? <==>
      LeftOpen(kind, policy, handler, first) &&
      (policy.ACK_FIRST? ||
       (seen.Some? &&
          (seen.value.kind.SkipRequest? || seen.value.kind.OtherHandlerException? || seen.value.kind.Cancelled?)) ||
       !Effective(kind, Attempt(ExitOp(policy, seen).value, last)))
  {
    LeftOpenIff(kind, policy, handler, first);
    SettledOnExit(kind, policy, handler, seen, first, last);
  }

  /** An error that a middleware inside has swallowed counts as success: the message is acknowledged. */
  lemma {:induction false} SwallowedIsAcked(kind: Kind, policy: AckPolicy, inner: seq<P.Middleware>, e: Error)
    requires Initially(kind).committed.None? && forall i :: 0 <= i < |inner| ==> P.Quiet(inner[i])
    requires P.Swallowed(P.Entered(inner), e)
    ensures var seen := P.Left(P.Entered(inner), Some(e));
      Run(kind, Initially(kind), Life(policy, [], seen, true, true)).committed == Some(ACKED)
  {
    P.QuietLeft(P.Entered(inner), Some(e));
    PolicySettles(kind, policy, [], None, true, true);
  }
}
