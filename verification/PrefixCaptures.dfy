/** What a router prefix does to captures. */
module PrefixCaptures {
  import opened Wrappers
  import opened AddressTemplates
  import opened AddressCaptures
  import opened BrokerSyntaxes

  function Lits(s: string): Pattern {
    seq(|s|, i requires 0 <= i < |s| => Lit(s[i]))
  }

  /** Literal text in front matches itself and leaves the rest to the pattern. */
  lemma {:induction false} LitsMatch(prefix: string, p: Pattern, u: string, sep: char)
    ensures Match(Lits(prefix) + p, u, sep) == if prefix <= u then Match(p, u[|prefix|..], sep) else None
  {
    var items := Lits(prefix) + p;
    if prefix == "" {
      assert items == p && u[0..] == u;
    } else {
      assert items[0] == Lit(prefix[0]) && items[1..] == Lits(prefix[1..]) + p;
      if u != "" && u[0] == prefix[0] {
        LitsMatch(prefix[1..], p, u[1..], sep);
        TailsMeet(prefix, u);
      }
    }
  }

  lemma {:induction false} TailsMeet(prefix: string, u: string)
    requires prefix != "" && u != "" && u[0] == prefix[0]
    ensures prefix <= u <==> prefix[1..] <= u[1..]
    ensures prefix <= u ==> u[1..][|prefix[1..]|..] == u[|prefix|..]
  {
    if prefix[1..] <= u[1..] {
      assert u == [u[0]] + u[1..] && prefix == [prefix[0]] + prefix[1..];
    }
  }

  // ----- what a skip finds -----

  lemma {:induction false} SkipFinds(p: Pattern, s: string, k: nat, j: nat, sep: char)
    requires k <= j <= |s| && (forall i :: k <= i < j ==> s[i] != '\n') && Match(p, s[j..], sep).Some?
    ensures Shortest([Skip] + p, s, k, sep).Some?
    decreases j - k
  {
    assert ([Skip] + p)[1..] == p;
    if k < j {
      SkipFinds(p, s, k + 1, j, sep);
    }
  }

  lemma {:induction false} SkipFoundAt(p: Pattern, s: string, k: nat, sep: char) returns (j: nat)
    requires k <= |s| && Shortest([Skip] + p, s, k, sep).Some?
    ensures k <= j <= |s| && (forall i :: k <= i < j ==> s[i] != '\n')
    ensures Match(p, s[j..], sep) == Shortest([Skip] + p, s, k, sep)
    ensures forall i :: k <= i < j ==> Match(p, s[i..], sep).None?
    decreases |s| - k
  {
    assert ([Skip] + p)[1..] == p;
    if Match(p, s[k..], sep).Some? {
      j := k;
    } else {
      j := SkipFoundAt(p, s, k + 1, sep);
    }
  }

  lemma {:induction false} SkipIs(p: Pattern, s: string, sep: char)
    ensures Match([Skip] + p, s, sep) == Shortest([Skip] + p, s, 0, sep)
  {
    assert ([Skip] + p)[0] == Skip;
  }

  /** A pattern that matches without skipping anything captures just that. */
  lemma {:induction false} MatchesAtOnce(p: Pattern, s: string, sep: char)
    requires Match(p, s, sep).Some?
    ensures Match([Skip] + p, s, sep) == Match(p, s, sep)
  {
    SkipIs(p, s, sep);
    assert ([Skip] + p)[1..] == p && s[0..] == s;
  }

  // ----- when a prefix keeps the captures -----

  /** A word that comes again further on has skipped the letters it then skips in what follows it. */
  lemma {:induction false} SameLetters(prefix: string, s: string, j: nat, c: char)
    requires j <= |s| && prefix <= (prefix + s)[j..] && c !in (prefix + s)[..j]
    ensures c !in s[..j]
  {
    var u := prefix + s;
    assert u[..j] + prefix == u[..j + |prefix|] == prefix + s[..j];
    assert multiset(u[..j] + prefix)[c] == multiset(u[..j])[c] + multiset(prefix)[c];
    assert multiset(prefix + s[..j])[c] == multiset(prefix)[c] + multiset(s[..j])[c];
    assert multiset(s[..j])[c] == multiset(u[..j])[c] == 0;
  }

  /** What is not matched is not matched with a prefix on both either. */
  lemma {:induction false} NoMatchStays(prefix: string, p: Pattern, s: string, sep: char)
    requires Match([Skip] + p, s, sep).None?
    ensures Match([Skip] + (Lits(prefix) + p), prefix + s, sep).None?
  {
    var q, u := Lits(prefix) + p, prefix + s;
    SkipIs(q, u, sep);
    SkipIs(p, s, sep);
    if Shortest([Skip] + q, u, 0, sep).Some? {
      var j := SkipFoundAt(q, u, 0, sep);
      LitsMatch(prefix, p, u[j..], sep);
      FoundBehind(prefix, s, j);
      SkipFinds(p, s, 0, j, sep);
    }
  }

  lemma {:induction false} FoundBehind(prefix: string, s: string, j: nat)
    requires j <= |prefix + s| && prefix <= (prefix + s)[j..] && forall i :: 0 <= i < j ==> (prefix + s)[i] != '\n'
    ensures j <= |s| && (prefix + s)[j..][|prefix|..] == s[j..] && forall i :: 0 <= i < j ==> s[i] != '\n'
  {
    SameLetters(prefix, s, j, '\n');
    assert forall i :: 0 <= i < j ==> s[..j][i] == s[i];
  }

  /** The pattern needs no skip on the subject, or does not match it at all. */
  predicate Anchored(p: Pattern, s: string, sep: char) {
    Match(p, s, sep).Some? || Match([Skip] + p, s, sep).None?
  }

  lemma {:induction false} PrefixKeepsCaptures(prefix: string, p: Pattern, s: string, sep: char)
    requires Anchored(p, s, sep)
    ensures Match([Skip] + (Lits(prefix) + p), prefix + s, sep) == Match([Skip] + p, s, sep)
  {
    if Match(p, s, sep).Some? {
      LitsMatch(prefix, p, prefix + s, sep);
      assert (prefix + s)[|prefix|..] == s;
      MatchesAtOnce(p, s, sep);
      MatchesAtOnce(Lits(prefix) + p, prefix + s, sep);
    } else {
      NoMatchStays(prefix, p, s, sep);
    }
  }

  /** A prefix that comes again nowhere in itself followed by `n` characters. */
  function Once(n: nat): (w: string)
    ensures |w| == n + 1 && '{' !in w && '}' !in w
  {
    "a" + seq(n, _ => 'b')
  }

  lemma {:induction false} OnceOnly(s: string, j: nat)
    requires j <= |Once(|s|) + s|
    ensures Once(|s|) <= (Once(|s|) + s)[j..] ==> j == 0
    ensures (Once(|s|) + s)[0..][|s| + 1..] == s
  {
    var w, u := Once(|s|), Once(|s|) + s;
    if 0 < j <= |s| {
      assert u[j..][0] == w[j] == 'b' && w[0] == 'a';
    }
  }

  lemma {:induction false} SkippedIsLost(p: Pattern, s: string, sep: char)
    requires Match(p, s, sep).None?
    ensures Match([Skip] + (Lits(Once(|s|)) + p), Once(|s|) + s, sep).None?
  {
    var q, u := Lits(Once(|s|)) + p, Once(|s|) + s;
    SkipIs(q, u, sep);
    if Shortest([Skip] + q, u, 0, sep).Some? {
      var j := SkipFoundAt(q, u, 0, sep);
      OnceOnly(s, j);
      LitsMatch(Once(|s|), p, u[j..], sep);
    }
  }

  ghost predicate KeptBy(prefix: string, p: Pattern, s: string, sep: char) {
    Match([Skip] + (Lits(prefix) + p), prefix + s, sep) == Match([Skip] + p, s, sep)
  }

  /**
   * For exactly which subjects every prefix on pattern and subject keeps the captures: those that
   * the pattern matches from their start, or not at all.
   */
  lemma {:induction false} PrefixKeepsIff(p: Pattern, s: string, sep: char)
    ensures (forall prefix :: '{' !in prefix && '}' !in prefix ==> KeptBy(prefix, p, s, sep)) <==> Anchored(p, s, sep)
  {
    if Anchored(p, s, sep) {
      forall prefix | '{' !in prefix && '}' !in prefix ensures KeptBy(prefix, p, s, sep) {
        PrefixKeepsCaptures(prefix, p, s, sep);
      }
    } else {
      SkippedIsLost(p, s, sep);
      assert !KeptBy(Once(|s|), p, s, sep);
    }
  }

  // ----- a subject that is lost -----

  /** Nothing is captured from a subject in which the pattern's first character is only where the rest fails. */
  lemma {:induction false} NothingFrom(pattern: Pattern, s: string, k: nat, c: char, sep: char)
    requires k <= |s| && |pattern| > 1 && pattern[0] == Skip && pattern[1] == Lit(c)
    requires forall i :: k <= i < |s| ==> s[i] != c
    ensures Shortest(pattern, s, k, sep) == None
    decreases |s| - k
  {
    assert Match(pattern[1..], s[k..], sep) == None;
    if k < |s| {
      NothingFrom(pattern, s, k + 1, c, sep);
    }
  }

  /** Otherwise it may not: a subject matched only after a skip is not matched with a prefix in front. */
  lemma {:induction false} PrefixLosesSkipped(name: ParamName)
    ensures Match([Skip] + Items([Par(name)]) + [End], "x.y", '.') == Some([(name, "y")])
    ensures Match([Skip] + Items(Plain(Chars("p.")) + [Par(name)]) + [End], "p." + "x.y", '.') == None
  {
    var pattern := [Skip, Cap(name), End];
    assert [Skip] + Items([Par(name)]) + [End] == pattern;
    SkipsToLast(name);

    var prefixed := [Skip, Lit('p'), Lit('.'), Cap(name), End];
    assert [Skip] + Items(Plain(Chars("p.")) + [Par(name)]) + [End] == prefixed;
    var s := "p." + "x.y";
    assert s == "p.x.y";
    assert Lits("p.") + pattern[1..] == prefixed[1..];
    LitsMatch("p.", pattern[1..], s, '.');
    assert s[2..] == "x.y";
    NotAtOnce(name);
    NothingFrom(prefixed, s, 1, 'p', '.');
    assert s[0..] == s;
    assert Shortest(prefixed, s, 0, '.') == None;
  }

  lemma {:induction false} NotAtOnce(name: ParamName)
    ensures Match([Cap(name), End], "x.y", '.') == None
  {
    var items := [Cap(name), End];
    var s := "x.y";
    assert items[1..] == [End];
    assert SegmentLength(s[1..], '.') == 0 && SegmentLength(s, '.') == 1;
    assert s[1..] == ".y" && Match([End], s[1..], '.') == None;
    assert Longest(items, s, 1, '.') == Longest(items, s, 0, '.') == None;
  }

  lemma {:induction false} SkipsToLast(name: ParamName)
    ensures Match([Skip, Cap(name), End], "x.y", '.') == Some([(name, "y")])
  {
    var pattern, items := [Skip, Cap(name), End], [Cap(name), End];
    var s := "x.y";
    assert pattern[1..] == items && items[1..] == [End] && [End][1..] == [];
    NotAtOnce(name);
    assert s[0..] == s && s[1..] == ".y" && s[2..] == "y";
    assert SegmentLength(".y", '.') == 0;
    assert Match(items, ".y", '.') == None;
    assert "y"[1..] == "" && "y"[..1] == "y";
    assert SegmentLength("", '.') == 0 && SegmentLength("y", '.') == 1;
    assert Match([End], "", '.') == Some([]);
    var found: Captures := [(name, "y")];
    assert found + [] == found;
    assert Longest(items, "y", 1, '.') == Some(found);
    assert Match(items, "y", '.') == Longest(items, "y", SegmentLength("y", '.'), '.');
    assert Match(items, "y", '.') == Some([(name, "y")]);
    assert Shortest(pattern, s, 2, '.') == Some([(name, "y")]);
    assert Shortest(pattern, s, 1, '.') == Shortest(pattern, s, 2, '.');
    assert Shortest(pattern, s, 0, '.') == Shortest(pattern, s, 1, '.');
  }

  // ----- the prefix in a declaration -----

  /** A prefixed template is the prefix as literals, then the template. */
  lemma {:induction false} PrefixItems(prefix: string, t: Template)
    ensures [Skip] + Items(Plain(Chars(prefix)) + t) + [End] == [Skip] + (Lits(prefix) + (Items(t) + [End]))
  {
  }

  lemma {:induction false} ReplacedAfter(prefix: string, p: Pattern, c: char, w: Item)
    requires c !in prefix
    ensures Replaced([Skip] + (Lits(prefix) + p), c, w) == [Skip] + (Lits(prefix) + Replaced(p, c, w))
  {
    ReplacedAppend(Lits(prefix), p, c, w);
    NothingReplaced(Lits(prefix), c, w);
    assert ([Skip] + (Lits(prefix) + p))[1..] == Lits(prefix) + p;
  }

  lemma {:induction false} ReplacedAppend(p: Pattern, q: Pattern, c: char, w: Item)
    ensures Replaced(p + q, c, w) == Replaced(p, c, w) + Replaced(q, c, w)
  {
    if p == [] {
      assert p + q == q;
    } else {
      assert (p + q)[1..] == p[1..] + q;
      ReplacedAppend(p[1..], q, c, w);
    }
  }

  /** MQTT's patch joins a separator and a `#` only across the seam. */
  lemma {:induction false} MqttPatchAfter(prefix: string, p: Pattern)
    requires '+' !in prefix && '#' !in prefix
    requires prefix != "" && prefix[|prefix| - 1] == '/' && p != [] ==> p[0] != Lit('#')
    ensures MqttPatch(Lits(prefix) + p) == Lits(prefix) + MqttPatch(p)
  {
    if prefix == "" {
      assert Lits(prefix) + p == p && Lits(prefix) + MqttPatch(p) == MqttPatch(p);
    } else {
      MqttPatchAfter(prefix[1..], p);
      LitsFirst(prefix, p);
      LitsFirst(prefix, MqttPatch(p));
      LitsFollow(prefix[1..], p);
      MqttKeeps(prefix[0], Lits(prefix[1..]) + p);
    }
  }

  lemma {:induction false} LitsFirst(prefix: string, p: Pattern)
    requires prefix != ""
    ensures Lits(prefix) + p == [Lit(prefix[0])] + (Lits(prefix[1..]) + p)
  {
  }

  lemma {:induction false} LitsFollow(prefix: string, p: Pattern)
    ensures prefix == "" ==> Lits(prefix) + p == p
    ensures prefix != "" ==> (Lits(prefix) + p)[0] == Lit(prefix[0])
  {
  }

  lemma {:induction false} MqttKeeps(c: char, p: Pattern)
    requires c != '+' && c != '#' && (c == '/' && p != [] ==> p[0] != Lit('#'))
    ensures MqttPatch([Lit(c)] + p) == [Lit(c)] + MqttPatch(p)
  {
    assert ([Lit(c)] + p)[1..] == p;
    assert p != [] ==> ([Lit(c)] + p)[1] == p[0];
  }

  /** NATS's patch needs a separator before its `>`, which the prefix may bring. */
  lemma {:induction false} NatsPatchAfter(prefix: string, p: Pattern)
    requires '>' !in prefix && (prefix != "" && prefix[|prefix| - 1] == '.' && p != [] ==> p[0] != Lit('>'))
    ensures NatsPatch(Lits(prefix) + p) == Lits(prefix) + NatsPatch(p)
  {
    if prefix == "" {
      assert Lits(prefix) + p == p && Lits(prefix) + NatsPatch(p) == NatsPatch(p);
    } else {
      NatsPatchAfter(prefix[1..], p);
      LitsFirst(prefix, p);
      LitsFirst(prefix, NatsPatch(p));
      LitsFollow(prefix[1..], p);
      NatsKeeps(prefix[0], Lits(prefix[1..]) + p);
    }
  }

  lemma {:induction false} NatsKeeps(c: char, p: Pattern)
    requires c == '.' && p != [] ==> p[0] != Lit('>')
    ensures NatsPatch([Lit(c)] + p) == [Lit(c)] + NatsPatch(p)
  {
    assert ([Lit(c)] + p)[1..] == p;
    assert p != [] ==> ([Lit(c)] + p)[1] == p[0];
  }

  /**
   * So the compiled pattern of a prefixed declaration is the prefix in front of the patched pattern, as long
   * as the prefix has none of the broker's wildcards.
   */
  lemma {:induction false} PatchAfterPrefix(prefix: string, t: Template)
    requires '+' !in prefix && '#' !in prefix && '*' !in prefix
    ensures var whole, p := [Skip] + Items(Plain(Chars(prefix)) + t) + [End], Items(t) + [End];
      REDIS_ADDRESS_SYNTAX.patchRegex(whole) == [Skip] + (Lits(prefix) + REDIS_ADDRESS_SYNTAX.patchRegex(p)) &&
      KAFKA_ADDRESS_SYNTAX.patchRegex(whole) == [Skip] + (Lits(prefix) + KAFKA_ADDRESS_SYNTAX.patchRegex(p)) &&
      RABBIT_ADDRESS_SYNTAX.patchRegex(whole) == [Skip] + (Lits(prefix) + RABBIT_ADDRESS_SYNTAX.patchRegex(p)) &&
      ((prefix != "" && prefix[|prefix| - 1] == '/' ==> t == [] || t[0] != Chr('#')) ==>
         MQTT_ADDRESS_SYNTAX.patchRegex(whole) == [Skip] + (Lits(prefix) + MQTT_ADDRESS_SYNTAX.patchRegex(p))) &&
      ('>' !in prefix && (prefix != "" && prefix[|prefix| - 1] == '.' ==> t == [] || t[0] != Chr('>')) ==>
         NATS_ADDRESS_SYNTAX.patchRegex(whole) == [Skip] + (Lits(prefix) + NATS_ADDRESS_SYNTAX.patchRegex(p)))
  {
    var p := Items(t) + [End];
    PrefixItems(prefix, t);
    ReplacedAfter(prefix, p, '*', Rest(0));
    ReplacedAfter(prefix, p, '#', Rest(1));
    if prefix != "" && prefix[|prefix| - 1] == '/' ==> t == [] || t[0] != Chr('#') {
      MqttPatchAfter(prefix, p);
      assert ([Skip] + (Lits(prefix) + p))[1..] == Lits(prefix) + p;
    }
    if '>' !in prefix && (prefix != "" && prefix[|prefix| - 1] == '.' ==> t == [] || t[0] != Chr('>')) {
      NatsPatchAfter(prefix, p);
      assert ([Skip] + (Lits(prefix) + p))[1..] == Lits(prefix) + p;
    }
  }

  lemma {:induction false} FormatPrefixed(prefix: string, t: Template, values: map<ParamName, string>)
    ensures Format(Plain(Chars(prefix)) + t, values) == prefix + Format(t, values)
  {
    if prefix == "" {
      assert Plain(Chars(prefix)) + t == t;
    } else {
      var more := Plain(Chars(prefix[1..])) + t;
      assert (Plain(Chars(prefix)) + t)[1..] == more && (Plain(Chars(prefix)) + t)[0] == Chr(prefix[0]);
      FormatPrefixed(prefix[1..], t, values);
    }
  }

  lemma {:induction false} InFront(front: Template, t: Template, sep: char, values: map<ParamName, string>)
    requires forall i :: 0 <= i < |front| ==> front[i].Chr?
    requires Covers(values, t, sep) && EndsSegments(t, sep)
    ensures Covers(values, front + t, sep) && EndsSegments(front + t, sep)
  {
    assert forall i :: |front| <= i < |front + t| ==> (front + t)[i] == t[i - |front|];
  }

  /** So what `add_prefix` returns still captures every value from what its template is filled with. */
  lemma {:induction false} PrefixedCaptures(
    prefix: string, declaration: string, syntax: AddressSyntax, values: map<ParamName, string>)
    requires '{' !in prefix && '}' !in prefix
    requires var t := Tokens(Escape(declaration));
      GoodNames(Names(t)) && Names(t) != [] && Covers(values, t, syntax.separator) && EndsSegments(t, syntax.separator)
    requires var t := Tokens(Escape(prefix + declaration));
      syntax.patchRegex([Skip] + Items(t) + [End]) == [Skip] + Items(t) + [End]
    ensures var t, r := Tokens(Escape(declaration)), Compile(Tokens(Escape(prefix + declaration)), syntax);
      r.Ok? && (forall n :: n in Names(t) ==> n in values) &&
      MatchPath(r.value.regex, prefix + Format(t, values), syntax.separator) == Chosen(Names(t), values)
  {
    var t := Tokens(Escape(declaration));
    var front := Plain(Chars(prefix));
    PrefixReads(prefix, declaration);
    PrefixedAddress(prefix, declaration, "");
    FormatPrefixed(prefix, t, values);
    InFront(front, t, syntax.separator, values);
    CompiledCaptures(front + t, syntax, values);
  }
}
