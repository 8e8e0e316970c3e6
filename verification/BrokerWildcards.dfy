/** What each broker's wildcards match once patched, and the symbols that stand for parameters in its addresses. */
module BrokerWildcards {
  import opened Wrappers
  import opened AddressTemplates
  import opened AddressCaptures
  import opened BrokerSyntaxes
  import opened CaptureSoundness
  import opened PrefixCaptures
  import opened MatchReading

  /** A pattern of literal text with one item between. */
  function Around(before: string, w: Item, after: string): Pattern {
    Lits(before) + ([w] + (Lits(after) + [End]))
  }

  lemma {:induction false} TextMatches(text: string, s: string, sep: char)
    ensures Match(Lits(text) + [End], s, sep).Some? <==> s == text || s == text + "\n"
  {
    LitsMatch(text, [End], s, sep);
    assert [End][1..] == [];
    if text <= s {
      assert s == text + s[|text|..];
    }
  }

  /** Literal text, then as much as the item may take, then literal text. */
  lemma {:induction false} AroundMatches(before: string, w: Item, after: string, s: string, sep: char)
    ensures Match(Around(before, w, after), s, sep).Some? <==>
      before <= s && exists n: nat :: Takes(w, s[|before|..], n, sep) && Ends(s, |before| + n, after)
  {
    var behind := [w] + (Lits(after) + [End]);
    LitsMatch(before, behind, s, sep);
    if before <= s {
      var left := s[|before|..];
      MatchReads(behind, left, sep);
      assert behind[0] == w && behind[1..] == Lits(after) + [End];
      forall n: nat | n <= |left|
        ensures Match(behind[1..], left[n..], sep).Some? <==> Ends(s, |before| + n, after)
      {
        TextMatches(after, left[n..], sep);
        assert left[n..] == s[|before| + n..];
      }
      if n: nat :| Takes(w, left, n, sep) && Ends(s, |before| + n, after) {
        assert Fits(behind, left, n, sep);
      }
      if n: nat :| Preferred(behind, left, n, sep) {
        assert Fits(behind, left, n, sep);
      }
    }
  }

  /** From position `k` on there is nothing but `text`, and perhaps a last line end. */
  ghost predicate Ends(s: string, k: nat, text: string) {
    k <= |s| && (s[k..] == text || s[k..] == text + "\n")
  }

  /** The subject is `text`, perhaps with a last line end. */
  ghost predicate Whole(s: string, text: string) {
    s == text || s == text + "\n"
  }

  lemma {:induction false} TakesPiece(item: Item, s: string, n: nat, sep: char)
    requires n <= |s| && (item.Segment? || item.Rest? || item.OptionalRest?)
    ensures Takes(item, s, n, sep) <==> PieceOf(item, s[..n], sep)
  {
    if n > 0 {
      assert s[..n][0] == s[0] && s[..n][1..] == s[1..n];
    }
  }

  lemma {:induction false} Cut(s: string, before: string, n: nat, after: string)
    requires before <= s && Ends(s, |before| + n, after)
    ensures Whole(s, before + s[|before|..][..n] + after)
  {
    assert s == before + s[|before|..][..n] + s[|before| + n..];
  }

  lemma {:induction false} Uncut(s: string, before: string, mid: string, after: string)
    requires Whole(s, before + mid + after)
    ensures before <= s && |before| + |mid| <= |s| && s[|before|..][..|mid|] == mid
    ensures Ends(s, |before| + |mid|, after)
  {
  }

  lemma {:induction false} GlobIff(before: string, w: Item, after: string, s: string, sep: char)
    requires w.Segment? || w.Rest? || w.OptionalRest?
    ensures Match(Around(before, w, after), s, sep).Some? <==>
      exists mid :: PieceOf(w, mid, sep) && Whole(s, before + mid + after)
  {
    AroundMatches(before, w, after, s, sep);
    if Match(Around(before, w, after), s, sep).Some? {
      var n: nat :| Takes(w, s[|before|..], n, sep) && Ends(s, |before| + n, after);
      TakesPiece(w, s[|before|..], n, sep);
      Cut(s, before, n, after);
    }
    if mid :| PieceOf(w, mid, sep) && Whole(s, before + mid + after) {
      Uncut(s, before, mid, after);
      TakesPiece(w, s[|before|..], |mid|, sep);
    }
  }

  // ----- the brokers -----

  /** The capture pattern of literal text, as it is before the patch. */
  function Declared(text: string): Pattern {
    Lits(text) + [End]
  }

  lemma {:induction false} LitsSplit(before: string, c: char, after: string)
    ensures Declared(before + [c] + after) == Around(before, Lit(c), after)
  {
  }

  lemma {:induction false} ReplacedAt(p: Pattern, c: char, w: Item)
    ensures |Replaced(p, c, w)| == |p|
    ensures forall i :: 0 <= i < |p| ==> Replaced(p, c, w)[i] == if p[i] == Lit(c) then w else p[i]
  {
    if p != [] {
      ReplacedAt(p[1..], c, w);
    }
  }

  lemma {:induction false} OneReplaced(before: string, c: char, after: string, w: Item)
    requires c !in before && c !in after
    ensures Replaced(Declared(before + [c] + after), c, w) == Around(before, w, after)
  {
    LitsSplit(before, c, after);
    ReplacedAt(Around(before, Lit(c), after), c, w);
  }

  /** Redis and Kafka: `*` is any text on one line. */
  lemma {:induction false} StarMatches(before: string, after: string, s: string)
    requires '*' !in before && '*' !in after
    ensures Match(REDIS_ADDRESS_SYNTAX.patchRegex(Declared(before + "*" + after)), s, '.').Some? <==>
      exists mid :: '\n' !in mid && Whole(s, before + mid + after)
    ensures Match(KAFKA_ADDRESS_SYNTAX.patchRegex(Declared(before + "*" + after)), s, '.').Some? <==>
      exists mid :: '\n' !in mid && Whole(s, before + mid + after)
  {
    OneReplaced(before, '*', after, Rest(0));
    GlobIff(before, Rest(0), after, s, '.');
    assert forall mid :: PieceOf(Rest(0), mid, '.') <==> '\n' !in mid;
  }

  /** RabbitMQ: `#` is any text of at least one character. */
  lemma {:induction false} RabbitHashMatches(before: string, after: string, s: string)
    requires '#' !in before && '#' !in after
    ensures Match(RABBIT_ADDRESS_SYNTAX.patchRegex(Declared(before + "#" + after)), s, '.').Some? <==>
      exists mid :: mid != "" && '\n' !in mid && Whole(s, before + mid + after)
  {
    OneReplaced(before, '#', after, Rest(1));
    GlobIff(before, Rest(1), after, s, '.');
    assert forall mid :: PieceOf(Rest(1), mid, '.') <==> mid != "" && '\n' !in mid;
  }

  lemma {:induction false} DeclaredAfter(before: string, text: string)
    ensures Declared(before + text) == Lits(before) + Declared(text)
  {
  }

  lemma {:induction false} NatsHere(after: string)
    requires '>' !in after
    ensures NatsPatch(Declared(".>" + after)) == [Lit('.'), Rest(1)] + Declared(after)
    ensures Declared(".>" + after) != [] && Declared(".>" + after)[0] == Lit('.')
  {
    var p := Declared(".>" + after);
    assert p[0] == Lit('.') && p[1] == Lit('>') && p[2..] == Declared(after);
    NatsLeavesAlone(Declared(after));
  }

  lemma {:induction false} DotThenRest(before: string, after: string)
    ensures Lits(before) + ([Lit('.'), Rest(1)] + Declared(after)) == Around(before + ".", Rest(1), after)
  {
  }

  lemma {:induction false} NatsPatches(before: string, after: string)
    requires '>' !in before && '>' !in after
    ensures NatsPatch(Declared(before + (".>" + after))) == Around(before + ".", Rest(1), after)
  {
    DeclaredAfter(before, ".>" + after);
    NatsHere(after);
    NatsPatchAfter(before, Declared(".>" + after));
    DotThenRest(before, after);
  }

  /** NATS: `>` as the end of a subject is the rest of it, of at least one character. */
  lemma {:induction false} NatsRestMatches(before: string, after: string, s: string)
    requires '>' !in before && '>' !in after
    ensures Match(NATS_ADDRESS_SYNTAX.patchRegex(Declared(before + ".>" + after)), s, '.').Some? <==>
      exists mid :: mid != "" && '\n' !in mid && Whole(s, before + "." + mid + after)
  {
    NatsPatches(before, after);
    assert before + ".>" + after == before + (".>" + after);
    GlobIff(before + ".", Rest(1), after, s, '.');
    assert forall mid :: PieceOf(Rest(1), mid, '.') <==> mid != "" && '\n' !in mid;
  }

  /** Literal text of an MQTT topic without its wildcards. */
  ghost predicate Tame(text: string) {
    '+' !in text && '#' !in text
  }

  /** What MQTT's patch makes of a wildcard that has no separator before it. */
  function MqttItem(c: char): Item {
    if c == '+' then Segment else Rest(0)
  }

  lemma {:induction false} MqttPatches(before: string, c: char, after: string)
    requires Tame(before) && Tame(after) && (c == '+' || (c == '#' && (before == "" || before[|before| - 1] != '/')))
    ensures MqttPatch(Declared(before + [c] + after)) == Around(before, MqttItem(c), after)
  {
    var p := Declared([c] + after);
    assert p[0] == Lit(c) && p[1..] == Declared(after);
    MqttLeavesAlone(Declared(after));
    DeclaredAfter(before, [c] + after);
    assert before + [c] + after == before + ([c] + after);
    MqttPatchAfter(before, p);
  }

  lemma {:induction false} MqttPatchesTail(before: string, after: string)
    requires Tame(before) && Tame(after)
    ensures MqttPatch(Declared(before + "/#" + after)) == Around(before, OptionalRest, after)
  {
    var p := Declared("/#" + after);
    assert p[0] == Lit('/') && p[1] == Lit('#') && p[2..] == Declared(after);
    MqttLeavesAlone(Declared(after));
    DeclaredAfter(before, "/#" + after);
    assert before + "/#" + after == before + ("/#" + after);
    MqttPatchAfter(before, p);
  }

  /** MQTT: `+` is one level. */
  lemma {:induction false} MqttLevelMatches(before: string, after: string, s: string)
    requires Tame(before) && Tame(after)
    ensures Match(MQTT_ADDRESS_SYNTAX.patchRegex(Declared(before + "+" + after)), s, '/').Some? <==>
      exists mid :: mid != "" && '/' !in mid && Whole(s, before + mid + after)
  {
    MqttPatches(before, '+', after);
    GlobIff(before, Segment, after, s, '/');
    assert forall mid :: PieceOf(Segment, mid, '/') <==> mid != "" && '/' !in mid;
  }

  /** `#` without a separator before it is any text on one line. */
  lemma {:induction false} MqttHashMatches(before: string, after: string, s: string)
    requires Tame(before) && Tame(after) && (before == "" || before[|before| - 1] != '/')
    ensures Match(MQTT_ADDRESS_SYNTAX.patchRegex(Declared(before + "#" + after)), s, '/').Some? <==>
      exists mid :: '\n' !in mid && Whole(s, before + mid + after)
  {
    MqttPatches(before, '#', after);
    GlobIff(before, Rest(0), after, s, '/');
    assert forall mid :: PieceOf(Rest(0), mid, '/') <==> '\n' !in mid;
  }

  /** `/#` is nothing, or a separator and any such text: a filter that ends in it covers the level above as well. */
  lemma {:induction false} MqttTailMatches(before: string, after: string, s: string)
    requires Tame(before) && Tame(after)
    ensures Match(MQTT_ADDRESS_SYNTAX.patchRegex(Declared(before + "/#" + after)), s, '/').Some? <==>
      exists mid :: (mid == "" || (mid[0] == '/' && '\n' !in mid[1..])) && Whole(s, before + mid + after)
  {
    MqttPatchesTail(before, after);
    GlobIff(before, OptionalRest, after, s, '/');
    assert forall mid :: PieceOf(OptionalRest, mid, '/') <==> mid == "" || (mid[0] == '/' && '\n' !in mid[1..]);
  }

  // ----- parameters in addresses -----

  ghost predicate Everywhere(values: map<ParamName, string>, t: Template, symbol: string) {
    forall i :: 0 <= i < |t| && t[i].Par? ==> t[i].name in values && values[t[i].name] == symbol
  }

  lemma {:induction false} AddressIsFormatted(t: Template, values: map<ParamName, string>, symbol: string)
    requires Everywhere(values, t, symbol)
    ensures BrokerAddress(t, symbol) == Format(t, values)
  {
    if t != [] {
      assert forall i :: 0 <= i < |t| - 1 ==> t[1..][i] == t[i + 1];
      AddressIsFormatted(t[1..], values, symbol);
    }
  }

  /** A compiled address is the template with every parameter filled with the broker's one symbol. */
  lemma {:induction false} AddressesFillIn(t: Template, values: map<ParamName, string>)
    requires WellNamed(t) && NoCloseAfterParam(t) && GoodNames(Names(t))
    ensures Everywhere(values, t, "*") ==>
      Addressed(t, REDIS_ADDRESS_SYNTAX, values) && Addressed(t, RABBIT_ADDRESS_SYNTAX, values) &&
      Addressed(t, NATS_ADDRESS_SYNTAX, values)
    ensures Everywhere(values, t, ".*") ==> Addressed(t, KAFKA_ADDRESS_SYNTAX, values)
    ensures Everywhere(values, t, "+") ==> Addressed(t, MQTT_ADDRESS_SYNTAX, values)
  {
    CompilePrinted(t, REDIS_ADDRESS_SYNTAX);
    CompilePrinted(t, RABBIT_ADDRESS_SYNTAX);
    CompilePrinted(t, NATS_ADDRESS_SYNTAX);
    CompilePrinted(t, KAFKA_ADDRESS_SYNTAX);
    CompilePrinted(t, MQTT_ADDRESS_SYNTAX);
    if Everywhere(values, t, "*") {
      AddressIsFormatted(t, values, "*");
    }
    if Everywhere(values, t, ".*") {
      AddressIsFormatted(t, values, ".*");
    }
    if Everywhere(values, t, "+") {
      AddressIsFormatted(t, values, "+");
    }
  }

  ghost predicate Addressed(t: Template, syntax: AddressSyntax, values: map<ParamName, string>) {
    var r := Compile(Tokens(Escape(Print(t))), syntax);
    r.Ok? && r.value.address == Format(t, values)
  }
}
