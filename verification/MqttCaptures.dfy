/** Subjects of MQTT topics with parameters and wildcards, and what is captured from them. */
module MqttCaptures {
  import opened Wrappers
  import opened AddressTemplates
  import opened AddressCaptures
  import opened BrokerSyntaxes
  import opened CaptureSoundness
  import opened MqttAddresses
  import opened PrefixCaptures

  /** A single-level wildcard written in a topic. */
  predicate IsPlus(t: Tok) {
    t == Chr('+')
  }

  function PlusCount(t: Template): nat {
    if t == [] then 0 else (if IsPlus(t[0]) then 1 else 0) + PlusCount(t[1..])
  }

  const TAIL: Template := [Chr('/'), Chr('#')]

  /** Single-level wildcards end their levels, and a multi-level one ends the topic, after a separator. */
  predicate WildcardsFit(t: Template) {
    t == [] || t == TAIL ||
    (t[0] != Chr('#') && (IsPlus(t[0]) && |t| > 1 ==> t[1] == Chr('/')) && WildcardsFit(t[1..]))
  }

  predicate IsLevel(s: string) {
    s != "" && '/' !in s
  }

  /** What `/#` stands for: nothing, or further levels on the same line. */
  predicate IsTail(s: string) {
    s == "" || (s[0] == '/' && '\n' !in s)
  }

  /** A subject of the topic: values for the parameters, a level for each `+`, and a tail for a last `/#`. */
  ghost function Subject(t: Template, values: map<ParamName, string>, levels: seq<string>, tail: string): string {
    if t == [] then ""
    else if t == TAIL then tail
    else if IsPlus(t[0]) && levels != [] then levels[0] + Subject(t[1..], values, levels[1..], tail)
    else
      (match t[0] case Chr(c) => [c] case Par(name) => if name in values then values[name] else "")
        + Subject(t[1..], values, levels, tail)
  }

  ghost predicate LevelsFor(t: Template, levels: seq<string>) {
    |levels| == PlusCount(t) && forall i :: 0 <= i < |levels| ==> IsLevel(levels[i])
  }

  lemma {:induction false} WholeLine(s: string)
    requires '\n' !in s
    ensures LineLength(s) == |s|
  {
    if s != "" {
      WholeLine(s[1..]);
    }
  }

  lemma {:induction false} TailMatches(tail: string)
    requires IsTail(tail)
    ensures Match([OptionalRest, End], tail, '/') == Some([])
  {
    var items: Pattern := [OptionalRest, End];
    assert items[1..] == [End] && [End][1..] == [];
    assert Match([End], "", '/') == Some([]);
    if tail != "" {
      var rest := tail[1..];
      WholeLine(rest);
      assert rest[|rest|..] == "";
      assert LongestRest(items, rest, |rest|, '/') == Some([]);
    }
  }

  /** The subject of what follows a level starts with a separator, or is empty. */
  lemma {:induction false} NextLevel(t: Template, values: map<ParamName, string>, levels: seq<string>, tail: string)
    requires t != [] ==> t[0] == Chr('/')
    requires IsTail(tail)
    ensures var s := Subject(t, values, levels, tail); s == "" || s[0] == '/'
  {
  }

  lemma {:induction false} TakesLevel(items: Pattern, v: string, rest: string)
    requires items != [] && items[0].Segment? && IsLevel(v) && (rest == "" || rest[0] == '/')
    requires Match(items[1..], rest, '/').Some?
    ensures Match(items, v + rest, '/') == Match(items[1..], rest, '/')
  {
    SegmentOf(v, rest, '/');
    assert (v + rest)[|v|..] == rest;
  }

  lemma {:induction false} CapturesLevel(items: Pattern, v: string, rest: string)
    requires items != [] && items[0].Cap? && IsLevel(v) && (rest == "" || rest[0] == '/')
    requires Match(items[1..], rest, '/').Some?
    ensures Match(items, v + rest, '/') == Some([(items[0].name, v)] + Match(items[1..], rest, '/').value)
  {
    SegmentOf(v, rest, '/');
    assert (v + rest)[|v|..] == rest && (v + rest)[..|v|] == v;
  }

  lemma {:induction false} PatchStep(t: Template)
    requires t != [] && t != TAIL && WildcardsFit(t)
    ensures MqttPatch(Items(t)) + [End]
         == [if IsPlus(t[0]) then Segment else Items(t)[0]] + (MqttPatch(Items(t[1..])) + [End])
  {
    assert Items(t)[1..] == Items(t[1..]);
    assert WildcardsFit(t[1..]) && (|t| > 1 ==> t[1..][0] == t[1]);
  }

  lemma {:induction false} NothingInTail(values: map<ParamName, string>)
    ensures CapturesOf(TAIL, values) == []
  {
    assert TAIL[1..] == [Chr('#')] && [Chr('#')][1..] == [];
    assert CapturesOf([Chr('#')], values) == [];
  }

  /** Every subject of a topic is captured from its start, with exactly the values of its parameters. */
  lemma {:induction false} SubjectCaptures(
    t: Template, values: map<ParamName, string>, levels: seq<string>, tail: string)
    requires WildcardsFit(t) && Covers(values, t, '/') && EndsSegments(t, '/') && LevelsFor(t, levels) && IsTail(tail)
    ensures Match(MqttPatch(Items(t)) + [End], Subject(t, values, levels, tail), '/') == Some(CapturesOf(t, values))
    decreases |t|
  {
    if t == [] {
      assert MqttPatch(Items(t)) + [End] == [End];
    } else if t == TAIL {
      assert Items(t) == [Lit('/'), Lit('#')] && Items(t)[2..] == [];
      assert MqttPatch(Items(t)) + [End] == [OptionalRest, End];
      TailMatches(tail);
      NothingInTail(values);
    } else {
      PatchStep(t);
      var rest, items := t[1..], MqttPatch(Items(t)) + [End];
      assert items[1..] == MqttPatch(Items(rest)) + [End];
      assert forall i :: 0 <= i < |rest| ==> rest[i] == t[i + 1];
      var further := if IsPlus(t[0]) then levels[1..] else levels;
      SubjectCaptures(rest, values, further, tail);
      SubjectStep(t, items, values, levels, tail);
    }
  }

  lemma {:induction false} SubjectStep(
    t: Template, items: Pattern, values: map<ParamName, string>, levels: seq<string>, tail: string)
    requires t != [] && t != TAIL && WildcardsFit(t) && Covers(values, t, '/') && EndsSegments(t, '/')
    requires LevelsFor(t, levels) && IsTail(tail)
    requires items != [] && items[0] == if IsPlus(t[0]) then Segment else Items(t)[0]
    requires var further := if IsPlus(t[0]) then levels[1..] else levels;
      Match(items[1..], Subject(t[1..], values, further, tail), '/') == Some(CapturesOf(t[1..], values))
    ensures Match(items, Subject(t, values, levels, tail), '/') == Some(CapturesOf(t, values))
  {
    var further := if IsPlus(t[0]) then levels[1..] else levels;
    var rest := Subject(t[1..], values, further, tail);
    match t[0] {
      case Par(name) =>
        NextLevel(t[1..], values, further, tail);
        CapturesLevel(items, values[name], rest);
      case Chr(c) =>
        if c == '+' {
          NextLevel(t[1..], values, further, tail);
          TakesLevel(items, levels[0], rest);
        } else {
          assert ([c] + rest)[1..] == rest;
        }
    }
  }

  lemma {:induction false} PatchAround(p: Pattern)
    ensures MqttPatch(p + [End]) == MqttPatch(p) + [End]
  {
    if p == [] {
      assert p + [End] == [End] && [End][1..] == [];
    } else if |p| > 1 && p[0] == Lit('/') && p[1] == Lit('#') {
      PatchAround(p[2..]);
      TwoPatched(p, p[2..] + [End]);
    } else {
      PatchAround(p[1..]);
      OnePatched(p, p[1..] + [End]);
    }
  }

  lemma {:induction false} TwoPatched(p: Pattern, rest: Pattern)
    requires |p| > 1 && p[0] == Lit('/') && p[1] == Lit('#') && rest == p[2..] + [End]
    ensures MqttPatch(p + [End]) == [OptionalRest] + MqttPatch(rest)
  {
    assert (p + [End])[2..] == rest;
  }

  lemma {:induction false} OnePatched(p: Pattern, rest: Pattern)
    requires p != [] && rest == p[1..] + [End] && !(|p| > 1 && p[0] == Lit('/') && p[1] == Lit('#'))
    ensures MqttPatch(p + [End])
         == [if p[0] == Lit('+') then Segment else if p[0] == Lit('#') then Rest(0) else p[0]] + MqttPatch(rest)
  {
    assert (p + [End])[1..] == rest;
  }

  lemma {:induction false} PatchedPattern(t: Template)
    ensures MqttPatch([Skip] + Items(t) + [End]) == [Skip] + MqttPatch(Items(t)) + [End]
  {
    PatchAround(Items(t));
    SkipStays([Skip] + Items(t) + [End], Items(t) + [End]);
    SkipFirst(MqttPatch(Items(t)));
  }

  lemma {:induction false} SkipStays(p: Pattern, rest: Pattern)
    requires p == [Skip] + rest
    ensures MqttPatch(p) == [Skip] + MqttPatch(rest)
  {
    assert p[1..] == rest;
  }

  lemma {:induction false} SkipFirst(p: Pattern)
    ensures [Skip] + (p + [End]) == [Skip] + p + [End]
  {
  }

  lemma {:induction false} PatchedCaptures(
    t: Template, values: map<ParamName, string>, levels: seq<string>, tail: string)
    requires WildcardsFit(t) && Covers(values, t, '/') && EndsSegments(t, '/') && LevelsFor(t, levels) && IsTail(tail)
    ensures MatchPath(Some(MqttPatch([Skip] + Items(t) + [End])), Subject(t, values, levels, tail), '/')
         == Chosen(Names(t), values)
    ensures forall n :: n in Names(t) ==> n in values
  {
    SubjectCaptures(t, values, levels, tail);
    PatchedPattern(t);
    var pattern := [Skip] + MqttPatch(Items(t)) + [End];
    var s := Subject(t, values, levels, tail);
    assert pattern[1..] == MqttPatch(Items(t)) + [End] && s[0..] == s;
    assert Match(pattern, s, '/') == Shortest(pattern, s, 0, '/');
    GroupDictOf(t, values);
  }

  /** A router prefix without wildcards, in front of topic and subject, leaves the captures as they are. */
  lemma {:induction false} PrefixedSubjectCaptures(
    prefix: string, t: Template, values: map<ParamName, string>, levels: seq<string>, tail: string)
    requires '+' !in prefix && '#' !in prefix && '*' !in prefix
    requires WildcardsFit(t) && Covers(values, t, '/') && EndsSegments(t, '/') && LevelsFor(t, levels) && IsTail(tail)
    ensures
      MatchPath(Some(MqttPatch([Skip] + Items(Plain(Chars(prefix)) + t) + [End])),
                prefix + Subject(t, values, levels, tail), '/')
        == Chosen(Names(t), values)
  {
    var p, s := MqttPatch(Items(t)) + [End], Subject(t, values, levels, tail);
    SubjectCaptures(t, values, levels, tail);
    PatchAround(Items(t));
    if t != [] {
      NeverStartsWithTail(t);
    }
    PatchAfterPrefix(prefix, t);
    PrefixKeepsCaptures(prefix, p, s, '/');
    MatchesAtOnce(p, s, '/');
    GroupDictOf(t, values);
  }

  lemma {:induction false} NeverStartsWithTail(t: Template)
    requires WildcardsFit(t) && t != []
    ensures t[0] != Chr('#')
  {
  }

  /**
   * From a topic to its captures: what the guard accepts compiles, its broker address has a `+` for each
   * parameter, and every subject of the topic, its own wildcards included, gives back the parameters' values.
   */
  lemma {:induction false} AcceptedCaptures(
    t: Template, values: map<ParamName, string>, levels: seq<string>, tail: string)
    requires WellNamed(t) && GoodNames(Names(t)) && Names(t) != [] && Accepted(Print(t))
    requires forall i :: 0 <= i < |t| && t[i].Par? ==> !Hidden(t, i)
    requires WildcardsFit(t) && Covers(values, t, '/') && LevelsFor(t, levels) && IsTail(tail)
    ensures var r := Compile(Tokens(Escape(Print(t))), MQTT_ADDRESS_SYNTAX);
      r.Ok? && r.value.address == BrokerAddress(t, "+") && (forall n :: n in Names(t) ==> n in values) &&
      MatchPath(r.value.regex, Subject(t, values, levels, tail), '/') == Chosen(Names(t), values)
  {
    AcceptedIff(t);
    NoCloseIfWhole(t);
    CompilePrinted(t, MQTT_ADDRESS_SYNTAX);
    PatchedCaptures(t, values, levels, tail);
  }

  lemma {:induction false} NoCloseIfWhole(t: Template)
    requires forall i :: 0 <= i < |t| && t[i].Par? ==> WholeLevel(t, i)
    ensures NoCloseAfterParam(t) && EndsSegments(t, '/')
  {
    forall i | 0 <= i < |t| && t[i].Par? ensures i + 1 == |t| || t[i + 1] == Chr('/') {
      assert WholeLevel(t, i);
    }
  }

  /** The same along the objects: the topic is read, compiled on demand and matched. */
  method CaptureFrom(
    t: Template, ghost values: map<ParamName, string>, ghost levels: seq<string>, ghost tail: string, subject: string)
    returns (captures: map<ParamName, string>)
    requires WellNamed(t) && GoodNames(Names(t)) && Names(t) != [] && Accepted(Print(t))
    requires forall i :: 0 <= i < |t| && t[i].Par? ==> !Hidden(t, i)
    requires WildcardsFit(t) && Covers(values, t, '/') && LevelsFor(t, levels) && IsTail(tail)
    requires subject == Subject(t, values, levels, tail)
    ensures captures == Chosen(Names(t), values)
  {
    AcceptedCaptures(t, values, levels, tail);
    var address := BuildMqttAddress(Print(t));
    var compiled := address.value.CompileOnce();
    captures := MatchPath(compiled.value.regex, subject, '/');
  }

  lemma {:induction false} PatchIsInner(p: Pattern)
    requires Inner(p)
    ensures Inner(MqttPatch(p))
  {
    if p != [] {
      var n := if |p| > 1 && p[0] == Lit('/') && p[1] == Lit('#') then 2 else 1;
      var rest := MqttPatch(p[n..]);
      assert forall i :: n <= i < |p| ==> p[n..][i - n] == p[i];
      PatchIsInner(p[n..]);
      assert MqttPatch(p) == [MqttPatch(p)[0]] + rest;
    }
  }

  /**
   * Whatever an MQTT address captures, from whatever subject, was there: a level for each parameter and each `+`,
   * nothing or further levels for `/#`, in the order of the topic.
   */
  lemma {:induction false} PatchedSound(t: Template, s: string, captures: Captures)
    returns (k: nat, pieces: seq<string>)
    requires Match(MqttPatch([Skip] + Items(t) + [End]), s, '/') == Some(captures)
    ensures k <= |s| && (forall i :: 0 <= i < k ==> s[i] != '\n')
    ensures Explains(MqttPatch(Items(t)), pieces, s[k..], captures, '/')
  {
    var p := MqttPatch(Items(t));
    PatchIsInner(Items(t));
    PatchedPattern(t);
    SkipFirst(p);
    k, pieces := SkippedPiecesSound(p, s, '/', captures);
  }
}
