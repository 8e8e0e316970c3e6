/** MQTT topic templates: every parameter must fill a whole topic level. */
module MqttAddresses {
  import opened Wrappers
  import opened AddressTemplates
  import opened AddressCaptures
  import opened BrokerSyntaxes

  const SEPARATOR := '/'

  /** The raw topic as symbols: nothing is escaped before this scan. */
  function Raw(topic: string): seq<Sym> {
    Chars(topic)
  }

  predicate IsBoundary(topic: string, i: int) {
    i < 0 || i >= |topic| || topic[i] == SEPARATOR
  }

  /** What the guard makes of the match it finds at `start`. */
  predicate LevelGiven(topic: string, start: nat, m: Option<nat>) {
    m.Some? ==> IsBoundary(topic, start - 1) && IsBoundary(topic, m.value)
  }

  /** The match of PARAM_REGEX at `i`, if any, is a whole topic level. */
  predicate LevelAt(topic: string, i: nat)
    requires i <= |topic|
  {
    LevelGiven(topic, i, MatchAt(Raw(topic), i))
  }

  ghost predicate Accepted(topic: string) {
    forall i: nat :: i <= |topic| ==> LevelAt(topic, i)
  }

  /** Nothing matches inside a match. */
  lemma {:induction false} NoMatchInside(s: seq<Sym>, i: nat, j: nat)
    requires i < j < |s| && MatchAt(s, i).Some? && j < MatchAt(s, i).value
    ensures MatchAt(s, j) == None
  {
    if j < WordEnd(s, i + 1) {
      WordsUntil(s, i + 1, j);
    }
  }

  lemma {:induction false} WordsUntil(s: seq<Sym>, i: nat, j: nat)
    requires i <= |s| && i <= j < WordEnd(s, i)
    ensures IsWordSym(s[j])
    decreases |s| - i
  {
    if i < j {
      WordsUntil(s, i + 1, j);
    }
  }

  lemma {:induction false} LevelsUpTo(topic: string, idx: nat, start: nat, end: nat)
    requires idx <= start < end <= |topic| && MatchAt(Raw(topic), start) == Some(end) && LevelAt(topic, start)
    requires forall j: nat :: idx <= j < start ==> MatchAt(Raw(topic), j) == None
    requires forall j: nat :: j < idx ==> LevelAt(topic, j)
    ensures forall j: nat :: j < end ==> LevelAt(topic, j)
  {
    forall j: nat | start < j < end ensures LevelAt(topic, j) {
      NoMatchInside(Raw(topic), start, j);
    }
  }

  /** Raises SetupError on a parameter that shares its level. */
  method BuildMqttAddress(topic: string) returns (r: Option<Address>)
    ensures r.Some? <==> Accepted(topic)
    ensures r.Some? ==> fresh(r.value) && r.value.Valid()
    ensures r.Some? ==> r.value.declaration == topic && r.value.syntax == MQTT_ADDRESS_SYNTAX
  {
    var raw := Raw(topic);
    var idx := 0;
    var m := NextMatch(raw, 0);
    while m.Some?
      invariant 0 <= idx <= |topic|
      invariant m.Some? ==> idx <= m.value.0 <= |topic| && MatchAt(raw, m.value.0) == Some(m.value.1)
      invariant forall j: nat :: idx <= j < (if m.Some? then m.value.0 else |topic|) ==> MatchAt(raw, j) == None
      invariant forall j: nat :: j < idx ==> LevelAt(topic, j)
      decreases |topic| - idx
    {
      var (start, end) := m.value;
      if !IsBoundary(topic, start - 1) || !IsBoundary(topic, end) {
        assert !LevelAt(topic, start);
        return None;
      }
      LevelsUpTo(topic, idx, start, end);
      idx := end;
      m := NextMatch(raw, idx);
    }
    var address := new Address(topic, MQTT_ADDRESS_SYNTAX);
    return Some(address);
  }

  // ----- what the guard sees of a printed template -----

  /** The position in the printed template where token `i` starts. */
  ghost function Position(t: Template, i: nat): nat
    requires i <= |t|
  {
    |Print(t[..i])|
  }

  ghost predicate WholeLevel(t: Template, i: nat)
    requires i < |t|
  {
    (i == 0 || t[i - 1] == Chr(SEPARATOR)) && (i + 1 == |t| || t[i + 1] == Chr(SEPARATOR))
  }

  /** A literal brace beside a parameter hides it from the raw scan. */
  ghost predicate Hidden(t: Template, i: nat)
    requires i < |t|
  {
    (i > 0 && t[i - 1] == Chr('{')) || (i + 1 < |t| && t[i + 1] == Chr('}'))
  }

  lemma {:induction false} ConsAppend<T>(t: seq<T>, u: seq<T>)
    requires t != []
    ensures t + u != [] && (t + u)[1..] == t[1..] + u && (t + u)[0] == t[0]
  {}

  lemma {:induction false} PrintAppend(t: Template, u: Template)
    ensures Print(t + u) == Print(t) + Print(u)
  {
    if t == [] {
      assert t + u == u;
    } else {
      PrintAppend(t[1..], u);
      ConsAppend(t, u);
      Assoc(PrintTok(t[0]), Print(t[1..]), Print(u));
    }
  }

  lemma {:induction false} PrintSplit(t: Template, i: nat)
    requires i < |t|
    ensures Print(t) == Print(t[..i]) + PrintTok(t[i]) + Print(t[i + 1..])
    ensures Position(t, i) + |PrintTok(t[i])| <= |Print(t)|
  {
    assert t == t[..i] + t[i..] && t[i..] == [t[i]] + t[i + 1..];
    PrintAppend(t[..i], t[i..]);
    assert t[i..][1..] == t[i + 1..];
    Assoc(Print(t[..i]), PrintTok(t[i]), Print(t[i + 1..]));
  }

  /** The last character printed for a token. */
  function LastChar(t: Tok): char {
    match t case Chr(c) => c case Par(_) => '}'
  }

  function FirstChar(t: Tok): char {
    match t case Chr(c) => c case Par(_) => '{'
  }

  lemma {:induction false} TokEnds(t: Tok)
    ensures PrintTok(t) != "" && PrintTok(t)[|PrintTok(t)| - 1] == LastChar(t)
  {}

  lemma {:induction false} LastPrinted(t: Template)
    requires t != []
    ensures Print(t) != "" && Print(t)[|Print(t)| - 1] == LastChar(t[|t| - 1])
  {
    var n := |t| - 1;
    PrintSplit(t, n);
    TokEnds(t[n]);
    assert Print(t[n + 1..]) == "";
    LastOfConcat(Print(t[..n]), PrintTok(t[n]));
  }

  lemma {:induction false} LastOfConcat(a: string, b: string)
    requires b != ""
    ensures a + b + "" == a + b && a + b != "" && (a + b)[|a + b| - 1] == b[|b| - 1]
  {}

  lemma {:induction false} RawText(left: string, mid: string, right: string, j: nat)
    requires j < |mid|
    ensures Raw(left + mid + right)[|left| + j] == Ch(mid[j])
  {}

  lemma {:induction false} RawEdges(left: string, mid: string, right: string)
    ensures var s := Raw(left + mid + right);
            AfterBrace(s, |left|) == (left != "" && left[|left| - 1] == '{') &&
            (|left + mid| < |s| <==> right != "") && (right != "" ==> s[|left + mid|] == Ch(right[0]))
  {}

  lemma {:induction false} ParamPrinted(name: ParamName)
    requires IsName(name)
    ensures var p := PrintTok(Par(name));
            |p| == |name| + 2 && p[0] == '{' && p[|name| + 1] == '}' &&
            forall j :: 0 <= j < |name| ==> p[j + 1] == name[j].c
  {}

  lemma {:induction false} NameIsRun(left: string, name: ParamName, right: string)
    requires IsName(name)
    ensures var s, p, n := Raw(left + PrintTok(Par(name)) + right), |left|, |name|;
            n > 0 && p + n + 2 <= |s| && s[p] == Ch('{') && s[p + n + 1] == Ch('}') && WordEnd(s, p + 1) == p + 1 + n
  {
    var mid := PrintTok(Par(name));
    var s, p, n := Raw(left + mid + right), |left|, |name|;
    ParamPrinted(name);
    RawText(left, mid, right, 0);
    RawText(left, mid, right, n + 1);
    forall j | p + 1 <= j < p + 1 + n ensures IsWordSym(s[j]) {
      RawText(left, mid, right, j - p);
      assert mid[(j - p - 1) + 1] == name[j - p - 1].c;
    }
    WordEndIs(s, p + 1, p + 1 + n);
  }

  /** The raw scan finds a printed parameter unless a brace stands beside it. */
  lemma {:induction false} ParamInText(left: string, name: ParamName, right: string)
    requires IsName(name)
    ensures MatchAt(Raw(left + PrintTok(Par(name)) + right), |left|)
         == if (left != "" && left[|left| - 1] == '{') || (right != "" && right[0] == '}') then None
            else Some(|left| + |name| + 2)
  {
    NameIsRun(left, name, right);
    ParamPrinted(name);
    RawEdges(left, PrintTok(Par(name)), right);
    MatchIs(Raw(left + PrintTok(Par(name)) + right), |left|, |name|);
  }

  lemma {:induction false} MatchIs(s: seq<Sym>, p: nat, n: nat)
    requires n > 0 && p + n + 1 < |s| && s[p] == Ch('{') && s[p + 1 + n] == Ch('}') && WordEnd(s, p + 1) == p + 1 + n
    ensures MatchAt(s, p)
         == if AfterBrace(s, p) || (p + n + 2 < |s| && s[p + n + 2] == Ch('}')) then None else Some(p + n + 2)
  {}

  /** `text` is the template in print: `left`, then token `i`, then `right`. */
  ghost predicate PrintedAround(t: Template, i: nat, text: string, left: string, right: string)
    requires i < |t|
  {
    text == left + PrintTok(t[i]) + right && Borders(t, i, left, right)
  }

  ghost predicate Borders(t: Template, i: nat, left: string, right: string)
    requires i < |t|
  {
    (left == "" <==> i == 0) && (i > 0 ==> left[|left| - 1] == LastChar(t[i - 1])) &&
    (right == "" <==> i + 1 == |t|) && (i + 1 < |t| ==> right[0] == FirstChar(t[i + 1]))
  }

  lemma {:induction false} Neighbours(t: Template, i: nat)
    requires i < |t| && WellNamed(t)
    ensures PrintedAround(t, i, Print(t), Print(t[..i]), Print(t[i + 1..]))
  {
    PrintSplit(t, i);
    EndsBefore(t[..i], Print(t[..i]));
    BeginsAfter(t[i + 1..], Print(t[i + 1..]));
  }

  lemma {:induction false} EndsBefore(t: Template, left: string)
    requires left == Print(t)
    ensures left == "" <==> t == []
    ensures t != [] ==> left != "" && left[|left| - 1] == LastChar(t[|t| - 1])
  {
    if t != [] {
      LastPrinted(t);
    }
  }

  lemma {:induction false} BeginsAfter(t: Template, right: string)
    requires WellNamed(t) && right == Print(t)
    ensures right == "" <==> t == []
    ensures t != [] ==> right != "" && right[0] == FirstChar(t[0])
  {
    FirstPrinted(t);
  }

  predicate EndsWith(s: string, c: char) {
    s != "" && s[|s| - 1] == c
  }

  predicate StartsWith(s: string, c: char) {
    s != "" && s[0] == c
  }

  /** A literal brace beside the text of a parameter. */
  predicate Hides(left: string, right: string) {
    EndsWith(left, '{') || StartsWith(right, '}')
  }

  /** Nothing else on its level. */
  predicate Alone(left: string, right: string) {
    (left == "" || EndsWith(left, SEPARATOR)) && (right == "" || StartsWith(right, SEPARATOR))
  }

  /** The raw scan finds a parameter in print exactly when no literal brace stands beside it. */
  lemma {:induction false} SeenIff(text: string, left: string, name: ParamName, right: string)
    requires IsName(name) && text == left + PrintTok(Par(name)) + right
    ensures MatchAt(Raw(text), |left|) == if Hides(left, right) then None else Some(|left| + |name| + 2)
  {
    ParamInText(left, name, right);
  }

  lemma {:induction false} TextEdges(left: string, mid: string, right: string)
    ensures IsBoundary(left + mid + right, |left| - 1) <==> left == "" || left[|left| - 1] == SEPARATOR
    ensures IsBoundary(left + mid + right, |left| + |mid|) <==> right == "" || right[0] == SEPARATOR
  {}

  lemma {:induction false} EdgesInText(text: string, left: string, name: ParamName, right: string)
    requires IsName(name) && text == left + PrintTok(Par(name)) + right
    ensures |left| + |name| + 2 <= |text|
    ensures IsBoundary(text, |left| - 1) && IsBoundary(text, |left| + |name| + 2) <==> Alone(left, right)
  {
    ParamPrinted(name);
    TextEdges(left, PrintTok(Par(name)), right);
  }

  lemma {:induction false} LevelGivenIff(
    text: string, left: string, name: ParamName, right: string, m: Option<nat>)
    requires IsName(name) && text == left + PrintTok(Par(name)) + right
    requires m == if Hides(left, right) then None else Some(|left| + |name| + 2)
    ensures LevelGiven(text, |left|, m) <==> Hides(left, right) || Alone(left, right)
  {
    EdgesInText(text, left, name, right);
  }

  lemma {:induction false} LevelInText(text: string, left: string, name: ParamName, right: string)
    requires IsName(name) && text == left + PrintTok(Par(name)) + right
    ensures |left| <= |text| && (LevelAt(text, |left|) <==> Hides(left, right) || Alone(left, right))
  {
    var m := MatchAt(Raw(text), |left|);
    SeenIff(text, left, name, right);
    LevelGivenIff(text, left, name, right, m);
  }

  /** What stands beside a token in print is what stands beside it in the template. */
  lemma {:induction false} BesideIn(t: Template, i: nat, left: string, right: string)
    requires i < |t| && t[i].Par? && Borders(t, i, left, right)
    ensures Hides(left, right) <==> Hidden(t, i)
    ensures Alone(left, right) <==> WholeLevel(t, i)
  {}

  lemma {:induction false} LevelIn(t: Template, i: nat, text: string, left: string, right: string)
    requires i < |t| && t[i].Par? && IsName(t[i].name) && PrintedAround(t, i, text, left, right)
    ensures |left| <= |text| && (LevelAt(text, |left|) <==> Hidden(t, i) || WholeLevel(t, i))
  {
    LevelInText(text, left, t[i].name, right);
    BesideIn(t, i, left, right);
  }

  lemma {:induction false} LevelIff(t: Template, i: nat)
    requires i < |t| && t[i].Par? && WellNamed(t)
    ensures Position(t, i) <= |Print(t)| && (LevelAt(Print(t), Position(t, i)) <==> Hidden(t, i) || WholeLevel(t, i))
  {
    Neighbours(t, i);
    LevelIn(t, i, Print(t), Print(t[..i]), Print(t[i + 1..]));
  }

  /** Only printed parameters match; `k` characters stand before them in `s`. */
  lemma {:induction false} OnlyParamsMatch(s: seq<Sym>, k: nat, t: Template, q: nat)
    requires k <= q <= |s| && s[k..] == Raw(Print(t)) && WellNamed(t)
    ensures MatchAt(s, q).Some? ==> exists i :: 0 <= i < |t| && t[i].Par? && q == k + Position(t, i)
    decreases |t|
  {
    if t == [] {
      assert s[k..] == [];
    } else {
      var first := PrintTok(t[0]);
      SplitRaw(s, k, Print(t), first, Print(t[1..]));
      if q < k + |first| {
        InsideFirst(s, k, t[0], first, q);
        assert t[..0] == [];
        assert Position(t, 0) == 0;
      } else {
        OnlyParamsMatch(s, k + |first|, t[1..], q);
        if i :| 0 <= i < |t| - 1 && t[1..][i].Par? && q == k + |first| + Position(t[1..], i) {
          PositionAfter(t, i);
          assert t[i + 1].Par? && q == k + Position(t, i + 1);
        }
      }
    }
  }

  /** From `k` on, `s` reads `a`. */
  ghost predicate Reads(s: seq<Sym>, k: nat, a: string) {
    k + |a| <= |s| && forall j :: 0 <= j < |a| ==> s[k + j] == Ch(a[j])
  }

  lemma {:induction false} SplitRaw(s: seq<Sym>, k: nat, text: string, a: string, b: string)
    requires k <= |s| && s[k..] == Raw(text) && text == a + b
    ensures Reads(s, k, a) && s[k + |a|..] == Raw(b)
  {
    assert s[k + |a|..] == s[k..][|a|..];
    forall j | 0 <= j < |a| ensures s[k + j] == Ch(a[j]) {
      assert s[k..][j] == s[k + j];
    }
  }

  lemma {:induction false} PositionAfter(t: Template, i: nat)
    requires i < |t| - 1
    ensures Position(t, i + 1) == |PrintTok(t[0])| + Position(t[1..], i)
  {
    assert t[..i + 1][1..] == t[1..][..i];
  }

  lemma {:induction false} InsideFirst(s: seq<Sym>, k: nat, first: Tok, printed: string, q: nat)
    requires (first.Par? ==> IsName(first.name)) && printed == PrintTok(first)
    requires Reads(s, k, printed) && k <= q < k + |printed|
    ensures MatchAt(s, q).Some? ==> first.Par? && q == k
  {
    assert s[k + (q - k)] == Ch(printed[q - k]);
    match first {
      case Chr(c) =>
        if c == '{' {
          assert printed[0] == '{' && printed[1] == '{';
          assert s[k + 0] == Ch('{') && s[k + 1] == Ch('{');
          WordEndIs(s, k + 1, k + 1);
        }
      case Par(name) =>
        ParamPrinted(name);
        if 0 < q - k < |printed| - 1 {
          assert printed[(q - k - 1) + 1] == name[q - k - 1].c;
        }
    }
  }

  /** The guard accepts exactly the templates whose visible parameters fill whole levels. */
  lemma {:induction false} AcceptedIff(t: Template)
    requires WellNamed(t)
    ensures Accepted(Print(t)) <==> forall i :: 0 <= i < |t| && t[i].Par? && !Hidden(t, i) ==> WholeLevel(t, i)
  {
    if Accepted(Print(t)) {
      forall i | 0 <= i < |t| && t[i].Par? && !Hidden(t, i) ensures WholeLevel(t, i) {
        LevelIff(t, i);
        assert LevelAt(Print(t), Position(t, i));
      }
    }
    if forall i :: 0 <= i < |t| && t[i].Par? && !Hidden(t, i) ==> WholeLevel(t, i) {
      forall q: nat | q <= |Print(t)| ensures LevelAt(Print(t), q) {
        var s := Raw(Print(t));
        if MatchAt(s, q).Some? {
          assert s[0..] == s;
          OnlyParamsMatch(s, 0, t, q);
          var i :| 0 <= i < |t| && t[i].Par? && q == 0 + Position(t, i);
          LevelIff(t, i);
        }
      }
    }
  }

  /** Of an accepted topic every parameter fills its level exactly if no literal brace hides one. */
  lemma {:induction false} WholeIff(t: Template)
    requires WellNamed(t) && Accepted(Print(t))
    ensures (forall i :: 0 <= i < |t| && t[i].Par? ==> WholeLevel(t, i))
       <==> (forall i :: 0 <= i < |t| && t[i].Par? ==> !Hidden(t, i))
  {
    AcceptedIff(t);
    forall i | 0 <= i < |t| && t[i].Par? && WholeLevel(t, i) ensures !Hidden(t, i) {
    }
  }

  /** A literal brace in front of a parameter gets past the guard, though the parameter shares its level. */
  lemma {:induction false} GuardMisses(name: ParamName)
    requires IsName(name)
    ensures var t := [Chr('{'), Par(name)];
            Accepted(Print(t)) && Tokens(Escape(Print(t))) == t && !WholeLevel(t, 1)
  {
    var t := [Chr('{'), Par(name)];
    AcceptedIff(t);
    ParsePrinted(t);
  }

  // ----- a prefix after the guard -----

  ghost predicate AllWhole(t: Template) {
    forall i :: 0 <= i < |t| && t[i].Par? ==> WholeLevel(t, i)
  }

  lemma {:induction false} ShiftedLevel(front: Template, t: Template, i: nat)
    requires i < |t|
    ensures i > 0 ==> (WholeLevel(front + t, |front| + i) <==> WholeLevel(t, i))
    ensures i == 0 && front != [] ==>
      (WholeLevel(front + t, |front|) <==>
         front[|front| - 1] == Chr(SEPARATOR) && (|t| == 1 || t[1] == Chr(SEPARATOR)))
  {
    assert i > 0 ==> (front + t)[|front| + i - 1] == t[i - 1];
    assert i + 1 < |t| ==> (front + t)[|front| + i + 1] == t[i + 1];
  }

  /**
   * The guard is not asked again for a prefixed address; its parameters still fill their levels exactly if the
   * prefix ends a level, or the topic does not start with a parameter.
   */
  lemma {:induction false} PrefixedWholeIff(prefix: string, t: Template)
    requires AllWhole(t)
    ensures AllWhole(Plain(Chars(prefix)) + t)
       <==> prefix == "" || prefix[|prefix| - 1] == SEPARATOR || t == [] || t[0].Chr?
  {
    var front := Plain(Chars(prefix));
    var whole := front + t;
    if prefix == "" {
      assert whole == t;
    } else {
      assert front[|front| - 1] == Chr(prefix[|prefix| - 1]);
      if t != [] {
        ShiftedLevel(front, t, 0);
      }
      if AllWhole(whole) && t != [] && t[0].Par? {
        assert whole[|front|] == t[0];
      }
      if prefix[|prefix| - 1] == SEPARATOR || t == [] || t[0].Chr? {
        forall j | 0 <= j < |whole| && whole[j].Par? ensures WholeLevel(whole, j) {
          ParamBehind(front, t, j);
        }
      }
    }
  }

  lemma {:induction false} ParamBehind(front: Template, t: Template, j: nat)
    requires AllWhole(t) && front != [] && forall i :: 0 <= i < |front| ==> front[i].Chr?
    requires j < |front + t| && (front + t)[j].Par?
    requires front[|front| - 1] == Chr(SEPARATOR) || t == [] || t[0].Chr?
    ensures WholeLevel(front + t, j)
  {
    var i := j - |front|;
    assert i >= 0 && t[i] == (front + t)[j];
    assert WholeLevel(t, i);
    ShiftedLevel(front, t, i);
  }

  /** The topic of one parameter under a prefix that does not end a level: accepted before, shared after. */
  lemma {:induction false} PrefixSharesLevel(name: ParamName)
    requires IsName(name)
    ensures var t := [Par(name)];
      var prefixed := Tokens(Escape("dev-" + Print(t)));
      Accepted(Print(t)) && !AllWhole(prefixed) && BrokerAddress(prefixed, "+") == "dev-+"
  {
    var t: Template := [Par(name)];
    AcceptedIff(t);
    ParsePrinted(t);
    PrefixReads("dev-", Print(t));
    PrefixedWholeIff("dev-", t);
    PrefixedAddress("dev-", Print(t), "+");
    OneParamAddress(name);
  }

  lemma {:induction false} OneParamAddress(name: ParamName)
    ensures BrokerAddress([Par(name)], "+") == "+"
  {
    assert [Par(name)][1..] == [] && "+" + "" == "+";
  }
}
