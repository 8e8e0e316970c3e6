/** How each broker spells wildcards: what its patch makes of them in a capture pattern. */
module BrokerSyntaxes {
  import opened AddressTemplates

  /** Every literal `c` becomes the wildcard `w`. */
  function Replaced(p: Pattern, c: char, w: Item): Pattern {
    if p == [] then [] else [if p[0] == Lit(c) then w else p[0]] + Replaced(p[1..], c, w)
  }

  /** `>` after a separator is the rest of a subject, of at least one character. */
  function NatsPatch(p: Pattern): Pattern {
    if p == [] then []
    else if |p| > 1 && p[0] == Lit('.') && p[1] == Lit('>') then [p[0], Rest(1)] + NatsPatch(p[2..])
    else [p[0]] + NatsPatch(p[1..])
  }

  /** `+` is one level; `#` is the rest, together with the separator before it if there is one. */
  function MqttPatch(p: Pattern): Pattern {
    if p == [] then []
    else if |p| > 1 && p[0] == Lit('/') && p[1] == Lit('#') then [OptionalRest] + MqttPatch(p[2..])
    else [if p[0] == Lit('+') then Segment else if p[0] == Lit('#') then Rest(0) else p[0]] + MqttPatch(p[1..])
  }

  const REDIS_ADDRESS_SYNTAX := AddressSyntax("*", (p: Pattern) => Replaced(p, '*', Rest(0)), '.')
  const KAFKA_ADDRESS_SYNTAX := AddressSyntax(".*", (p: Pattern) => Replaced(p, '*', Rest(0)), '.')
  const RABBIT_ADDRESS_SYNTAX := AddressSyntax("*", (p: Pattern) => Replaced(p, '#', Rest(1)), '.')
  const NATS_ADDRESS_SYNTAX := AddressSyntax("*", NatsPatch, '.')
  const MQTT_ADDRESS_SYNTAX := AddressSyntax("+", MqttPatch, '/')

  ghost predicate FreeOf(p: Pattern, c: char) {
    forall i :: 0 <= i < |p| ==> p[i] != Lit(c)
  }

  lemma {:induction false} NothingReplaced(p: Pattern, c: char, w: Item)
    requires FreeOf(p, c)
    ensures Replaced(p, c, w) == p
  {
    if p != [] {
      assert forall i :: 0 <= i < |p| - 1 ==> p[1..][i] == p[i + 1];
      NothingReplaced(p[1..], c, w);
    }
  }

  lemma {:induction false} NatsLeavesAlone(p: Pattern)
    requires FreeOf(p, '>')
    ensures NatsPatch(p) == p
  {
    if p != [] {
      assert forall i :: 0 <= i < |p| - 1 ==> p[1..][i] == p[i + 1];
      NatsLeavesAlone(p[1..]);
    }
  }

  lemma {:induction false} MqttLeavesAlone(p: Pattern)
    requires FreeOf(p, '+') && FreeOf(p, '#')
    ensures MqttPatch(p) == p
  {
    if p != [] {
      assert forall i :: 0 <= i < |p| - 1 ==> p[1..][i] == p[i + 1];
      MqttLeavesAlone(p[1..]);
    }
  }

  /** Patterns without a broker's wildcards are what its patch leaves alone. */
  lemma {:induction false} LeftAlone(p: Pattern)
    ensures FreeOf(p, '*') ==> REDIS_ADDRESS_SYNTAX.patchRegex(p) == p && KAFKA_ADDRESS_SYNTAX.patchRegex(p) == p
    ensures FreeOf(p, '#') ==> RABBIT_ADDRESS_SYNTAX.patchRegex(p) == p
    ensures FreeOf(p, '>') ==> NATS_ADDRESS_SYNTAX.patchRegex(p) == p
    ensures FreeOf(p, '+') && FreeOf(p, '#') ==> MQTT_ADDRESS_SYNTAX.patchRegex(p) == p
  {
    if FreeOf(p, '*') {
      NothingReplaced(p, '*', Rest(0));
    }
    if FreeOf(p, '#') {
      NothingReplaced(p, '#', Rest(1));
      if FreeOf(p, '+') {
        MqttLeavesAlone(p);
      }
    }
    if FreeOf(p, '>') {
      NatsLeavesAlone(p);
    }
  }
}
