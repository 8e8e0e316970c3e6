/** Settling messages: the write-once status, and what each broker is told. */
module Acknowledgements {
  import opened Wrappers

  datatype AckStatus = ACKED | NACKED | REJECTED

  datatype Op = Ack | Nack | Reject

  datatype BrokerCall = Commit | Seek | RawAck

  /** `located` holds of a record whose topic, partition and offset are all known. */
  datatype Kind =
    | Plain
    | Kafka
    | KafkaAckable
    | Confluent(isManual: bool, located: bool)
    | Mqtt(atMostOnce: bool)

  // ----- what one operation means -----

  /** The status an operation records on a message that has none. */
  function Records(kind: Kind, op: Op): Option<AckStatus> {
    match (kind, op)
    case (Mqtt(_), Nack) => None
    case (_, Nack) => Some(NACKED)
    case (_, Ack) => Some(ACKED)
    case (Plain, Reject) => Some(REJECTED)
    case (Kafka, Reject) => Some(REJECTED)
    case (_, Reject) => Some(ACKED)
  }

  /** What it tells the broker first. */
  function Tells(kind: Kind, op: Op): seq<BrokerCall> {
    match kind
    case Plain => []
    case Kafka => []
    case KafkaAckable => if op.Nack? then [Seek] else [Commit]
    case Confluent(isManual, located) =>
      if !isManual then [] else if !op.Nack? then [Commit] else if located then [Seek] else []
    case Mqtt(atMostOnce) => if op.Nack? || atMostOnce then [] else [RawAck]
  }

  /** `accepted`: whether the broker would accept a call, or raise. */
  datatype Attempt = Attempt(op: Op, accepted: bool)

  ghost predicate Effective(kind: Kind, a: Attempt) {
    Records(kind, a.op).Some? && (a.accepted || Tells(kind, a.op) == [])
  }

  /** The status, and the calls that the broker has accepted. */
  datatype Settling = Settling(committed: Option<AckStatus>, calls: seq<BrokerCall>)

  /** Messages that nothing has to be told about start out settled. */
  function Initially(kind: Kind): Settling {
    Settling(if kind.Kafka? || (kind.Confluent? && !kind.isManual) then Some(ACKED) else None, [])
  }

  /** One operation on a message. */
  ghost function Step(kind: Kind, s: Settling, a: Attempt): Settling {
    if s.committed.Some? || !Effective(kind, a) then s
    else Settling(Records(kind, a.op), s.calls + Tells(kind, a.op))
  }

  ghost function Run(kind: Kind, s: Settling, attempts: seq<Attempt>): Settling
    decreases |attempts|
  {
    if attempts == [] then s else Run(kind, Step(kind, s, attempts[0]), attempts[1..])
  }

  class StreamMessage {
    const kind: Kind
    var committed: Option<AckStatus>
    var calls: seq<BrokerCall>

    ghost function Now(): Settling
      reads this
    {
      Settling(committed, calls)
    }

    constructor (kind: Kind)
      ensures this.kind == kind && Now() == Initially(kind)
    {
      this.kind, calls := kind, [];
      committed := if kind.Kafka? || (kind.Confluent? && !kind.isManual) then Some(ACKED) else None;
    }

    method Write(status: AckStatus)
      modifies this
      ensures committed == if old(committed).None? then Some(status) else old(committed)
      ensures calls == old(calls)
    {
      if committed.None? {
        committed := Some(status);
      }
    }

    method Tell(call: BrokerCall, accepted: bool) returns (raised: bool)
      modifies this
      ensures raised == !accepted && committed == old(committed)
      ensures calls == if accepted then old(calls) + [call] else old(calls)
    {
      if accepted {
        calls := calls + [call];
      }
      return !accepted;
    }

    method Ack(accepted: bool) returns (raised: bool)
      modifies this
      ensures Now() == Step(kind, old(Now()), Attempt(Op.Ack, accepted))
      ensures raised <==> old(committed).None? && Tells(kind, Op.Ack) != [] && !accepted
    {
      raised := false;
      match kind {
        case KafkaAckable =>
          if committed.None? {
            raised := Tell(Commit, accepted);
          }
        case Confluent(isManual, _) =>
          if isManual && committed.None? {
            raised := Tell(Commit, accepted);
          }
        case Mqtt(atMostOnce) =>
          if committed.None? && !atMostOnce {
            raised := Tell(RawAck, accepted);
          }
        case _ =>
      }
      if !raised {
        Write(ACKED);
      }
    }

    method Nack(accepted: bool) returns (raised: bool)
      modifies this
      ensures Now() == Step(kind, old(Now()), Attempt(Op.Nack, accepted))
      ensures raised <==> old(committed).None? && Tells(kind, Op.Nack) != [] && !accepted
    {
      raised := false;
      match kind {
        case KafkaAckable =>
          if committed.None? {
            raised := Tell(Seek, accepted);
          }
        case Confluent(isManual, located) =>
          if isManual && committed.None? {
            if located {
              raised := Tell(Seek, accepted);
            }
          }
        case Mqtt(_) =>
          return false;
        case _ =>
      }
      if !raised {
        Write(NACKED);
      }
    }

    method Reject(accepted: bool) returns (raised: bool)
      modifies this
      ensures Now() == Step(kind, old(Now()), Attempt(Op.Reject, accepted))
      ensures raised <==> old(committed).None? && Tells(kind, Op.Reject) != [] && !accepted
    {
      if kind.Plain? || kind.Kafka? {
        Write(REJECTED);
        return false;
      }
      raised := Ack(accepted);
    }

    method Settle(op: Op, accepted: bool) returns (raised: bool)
      modifies this
      ensures Now() == Step(kind, old(Now()), Attempt(op, accepted))
    {
      match op {
        case Ack => raised := Ack(accepted);
        case Nack => raised := Nack(accepted);
        case Reject => raised := Reject(accepted);
      }
    }
  }

  // ----- runs of operations -----

  lemma {:induction false} SettledStays(kind: Kind, s: Settling, attempts: seq<Attempt>)
    requires s.committed.Some?
    ensures Run(kind, s, attempts) == s
    decreases |attempts|
  {
    if attempts != [] {
      SettledStays(kind, s, attempts[1..]);
    }
  }

  /** The first attempt that takes effect decides alone: what is recorded, and what the broker was told. */
  lemma {:induction false} FirstDecides(kind: Kind, s: Settling, attempts: seq<Attempt>, k: nat)
    requires s.committed.None? && k <= |attempts|
    requires forall i :: 0 <= i < k ==> !Effective(kind, attempts[i])
    requires k < |attempts| ==> Effective(kind, attempts[k])
    ensures Run(kind, s, attempts)
         == if k == |attempts| then s
            else Settling(Records(kind, attempts[k].op), s.calls + Tells(kind, attempts[k].op))
    decreases k
  {
    if k > 0 {
      FirstDecides(kind, s, attempts[1..], k - 1);
    } else if attempts != [] {
      SettledStays(kind, Step(kind, s, attempts[0]), attempts[1..]);
    }
  }

  lemma {:induction false} RunSplits(kind: Kind, s: Settling, a: seq<Attempt>, b: seq<Attempt>)
    ensures Run(kind, s, a + b) == Run(kind, Run(kind, s, a), b)
    decreases |a|
  {
    if a == [] {
      assert a + b == b;
    } else {
      assert (a + b)[1..] == a[1..] + b;
      RunSplits(kind, Step(kind, s, a[0]), a[1..], b);
    }
  }

  lemma {:induction false} FirstEffective(kind: Kind, attempts: seq<Attempt>) returns (k: nat)
    ensures k <= |attempts| && forall i :: 0 <= i < k ==> !Effective(kind, attempts[i])
    ensures k < |attempts| ==> Effective(kind, attempts[k])
  {
    k := 0;
    while k < |attempts| && !Effective(kind, attempts[k])
      invariant k <= |attempts| && forall i :: 0 <= i < k ==> !Effective(kind, attempts[i])
    {
      k := k + 1;
    }
  }

  /**
   * Over any run the status is written at most once, the broker accepts at most one call,
   * and only together with a status.
   */
  lemma {:induction false} SettledOnce(kind: Kind, attempts: seq<Attempt>, more: seq<Attempt>)
    ensures var s := Run(kind, Initially(kind), attempts);
      |s.calls| <= 1 && (s.calls != [] ==> s.committed.Some?) &&
      (s.committed.Some? ==> Run(kind, Initially(kind), attempts + more) == s)
  {
    RunSplits(kind, Initially(kind), attempts, more);
    if Initially(kind).committed.Some? {
      SettledStays(kind, Initially(kind), attempts);
      SettledStays(kind, Initially(kind), more);
    } else {
      var k := FirstEffective(kind, attempts);
      FirstDecides(kind, Initially(kind), attempts, k);
      if k < |attempts| {
        SettledStays(kind, Run(kind, Initially(kind), attempts), more);
      }
    }
  }

  /**
   * What a broker was told fits the status recorded: a commit for an acknowledged Kafka message, a seek
   * for one not acknowledged, a raw ack with MQTT, unless nobody has to be told. A rejection is never
   * recorded for these brokers, nor a negative one with MQTT.
   */
  lemma {:induction false} ToldFitsStatus(kind: Kind, attempts: seq<Attempt>)
    ensures var s := Run(kind, Initially(kind), attempts);
      var manual := kind.KafkaAckable? || (kind.Confluent? && kind.isManual);
      (s.calls == [Commit] <==> manual && s.committed == Some(ACKED)) &&
      (s.calls == [Seek] <==> manual && s.committed == Some(NACKED) && (kind.Confluent? ==> kind.located)) &&
      (s.calls == [RawAck] <==> kind.Mqtt? && !kind.atMostOnce && s.committed == Some(ACKED)) &&
      (s.committed == Some(REJECTED) ==> kind.Plain?) &&
      (s.committed == Some(NACKED) ==> kind.Plain? || manual)
  {
    if Initially(kind).committed.Some? {
      SettledStays(kind, Initially(kind), attempts);
    } else {
      var k := FirstEffective(kind, attempts);
      FirstDecides(kind, Initially(kind), attempts, k);
      if k < |attempts| {
        assert [] + Tells(kind, attempts[k].op) == Tells(kind, attempts[k].op);
      }
    }
  }
}
