/** Matching incoming subjects against compiled templates, and the address objects that do it. */
module AddressCaptures {
  import opened Wrappers
  import opened AddressTemplates

  type Captures = seq<(ParamName, string)>

  // ----- the ordered matcher -----

  /** How far `[^sep]+` could reach. */
  function SegmentLength(s: string, sep: char): (n: nat)
    ensures n <= |s|
  {
    if s == "" || s[0] == sep then 0 else 1 + SegmentLength(s[1..], sep)
  }

  /** What `pattern.match` captures, trying alternatives in the order of the regex. */
  function Match(items: Pattern, s: string, sep: char): Option<Captures>
    decreases |items|, |s| + 1
  {
    if items == [] then Some([])
    else
      match items[0]
      case End => if s == "" || s == "\n" then Match(items[1..], "", sep) else None
      case Lit(c) => if s != "" && s[0] == c then Match(items[1..], s[1..], sep) else None
      case Cap(name) => Longest(items, s, SegmentLength(s, sep), sep)
      case Skip => Shortest(items, s, 0, sep)
      case Segment => Longest(items, s, SegmentLength(s, sep), sep)
      case Rest(_) => LongestRest(items, s, LineLength(s), sep)
      case OptionalRest =>
        var taken := if s != "" && s[0] == sep then LongestRest(items, s[1..], LineLength(s[1..]), sep) else None;
        if taken.Some? then taken else Match(items[1..], s, sep)
  }

  /** A greedy group, tried from length `n` down to one character. */
  function Longest(items: Pattern, s: string, n: nat, sep: char): Option<Captures>
    requires items != [] && (items[0].Cap? || items[0].Segment?) && n <= |s|
    decreases |items|, n
  {
    if n == 0 then None
    else
      var rest := Match(items[1..], s[n..], sep);
      if rest.None? then Longest(items, s, n - 1, sep)
      else if items[0].Segment? then rest
      else Some([(items[0].name, s[..n])] + rest.value)
  }

  /** How far `.*` could reach: a dot does not match a line end. */
  function LineLength(s: string): (n: nat)
    ensures n <= |s|
  {
    if s == "" || s[0] == '\n' then 0 else 1 + LineLength(s[1..])
  }

  /** `.*`, or `.+`, tried from length `n` down. */
  function LongestRest(items: Pattern, s: string, n: nat, sep: char): Option<Captures>
    requires items != [] && (items[0].Rest? || items[0].OptionalRest?) && n <= |s|
    decreases |items|, n
  {
    if items[0].Rest? && n < items[0].min then None
    else
      var rest := Match(items[1..], s[n..], sep);
      if rest.Some? || n == 0 then rest else LongestRest(items, s, n - 1, sep)
  }

  /** `.*?`, tried from length `k` up; a dot does not match a line end. */
  function Shortest(items: Pattern, s: string, k: nat, sep: char): Option<Captures>
    requires items != [] && k <= |s|
    decreases |items|, |s| - k
  {
    var rest := Match(items[1..], s[k..], sep);
    if rest.Some? || k == |s| || s[k] == '\n' then rest else Shortest(items, s, k + 1, sep)
  }

  function GroupDict(captures: Captures): map<ParamName, string> {
    if captures == [] then map[] else map[captures[0].0 := captures[0].1] + GroupDict(captures[1..])
  }

  /** `match_path`. */
  function MatchPath(regex: Option<Pattern>, subject: string, sep: char): map<ParamName, string> {
    if regex.None? then map[]
    else
      var m := Match(regex.value, subject, sep);
      if m.Some? then GroupDict(m.value) else map[]
  }

  // ----- formatting a template -----

  ghost predicate Covers(values: map<ParamName, string>, t: Template, sep: char) {
    forall i :: 0 <= i < |t| && t[i].Par? ==>
      t[i].name in values && values[t[i].name] != "" && sep !in values[t[i].name]
  }

  ghost function Format(t: Template, values: map<ParamName, string>): string {
    if t == [] then ""
    else
      (match t[0] case Chr(c) => [c] case Par(name) => if name in values then values[name] else "")
        + Format(t[1..], values)
  }

  ghost function CapturesOf(t: Template, values: map<ParamName, string>): Captures {
    if t == [] then []
    else if t[0].Par? && t[0].name in values then [(t[0].name, values[t[0].name])] + CapturesOf(t[1..], values)
    else CapturesOf(t[1..], values)
  }

  /** Every parameter runs to the end of its segment. */
  ghost predicate EndsSegments(t: Template, sep: char) {
    forall i :: 0 <= i < |t| && t[i].Par? ==> i + 1 == |t| || t[i + 1] == Chr(sep)
  }

  lemma {:induction false} SegmentOf(value: string, rest: string, sep: char)
    requires sep !in value && (rest == "" || rest[0] == sep)
    ensures SegmentLength(value + rest, sep) == |value|
  {
    if value == "" {
      assert value + rest == rest;
    } else {
      assert (value + rest)[1..] == value[1..] + rest;
      SegmentOf(value[1..], rest, sep);
    }
  }

  lemma {:induction false} FormatCaptures(t: Template, values: map<ParamName, string>, sep: char)
    requires Covers(values, t, sep) && EndsSegments(t, sep)
    ensures Match(Items(t) + [End], Format(t, values), sep) == Some(CapturesOf(t, values))
  {
    var items := Items(t) + [End];
    if t == [] {
      assert items == [End];
    } else {
      var rest := t[1..];
      assert items[1..] == Items(rest) + [End];
      assert Covers(values, rest, sep) && EndsSegments(rest, sep) by {
        assert forall i :: 0 <= i < |rest| ==> rest[i] == t[i + 1];
      }
      FormatCaptures(rest, values, sep);
      var s := Format(t, values);
      match t[0] {
        case Chr(c) =>
          assert s[1..] == Format(rest, values);
        case Par(name) =>
          var v := values[name];
          assert s == v + Format(rest, values);
          if rest != [] {
            assert t[1] == Chr(sep);
          }
          SegmentOf(v, Format(rest, values), sep);
          assert s[..|v|] == v && s[|v|..] == Format(rest, values);
      }
    }
  }

  function Chosen(names: seq<ParamName>, values: map<ParamName, string>): map<ParamName, string> {
    map n | n in names && n in values :: values[n]
  }

  lemma {:induction false} ChosenMore(name: ParamName, names: seq<ParamName>, values: map<ParamName, string>)
    requires name in values
    ensures Chosen([name] + names, values) == map[name := values[name]] + Chosen(names, values)
  {}

  lemma {:induction false} GroupDictOf(t: Template, values: map<ParamName, string>)
    requires forall i :: 0 <= i < |t| && t[i].Par? ==> t[i].name in values
    ensures GroupDict(CapturesOf(t, values)) == Chosen(Names(t), values)
    ensures forall n :: n in Names(t) ==> n in values
  {
    if t != [] {
      assert forall i :: 0 <= i < |t[1..]| ==> t[1..][i] == t[i + 1];
      GroupDictOf(t[1..], values);
      if t[0].Par? {
        ChosenMore(t[0].name, Names(t[1..]), values);
      } else {
        assert [] + Names(t[1..]) == Names(t[1..]);
      }
    }
  }

  /** Formatting a template and matching its compiled pattern gives back exactly the values. */
  lemma {:induction false} FormatThenMatch(t: Template, values: map<ParamName, string>, sep: char)
    requires Covers(values, t, sep) && EndsSegments(t, sep)
    ensures MatchPath(Some([Skip] + Items(t) + [End]), Format(t, values), sep) == Chosen(Names(t), values)
    ensures forall n :: n in Names(t) ==> n in values
  {
    var pattern := [Skip] + Items(t) + [End];
    assert pattern[1..] == Items(t) + [End];
    FormatCaptures(t, values, sep);
    var s := Format(t, values);
    assert s[0..] == s;
    assert Match(pattern, s, sep) == Shortest(pattern, s, 0, sep) == Some(CapturesOf(t, values));
    GroupDictOf(t, values);
  }

  /** What the compiled address captures, if the broker's patch finds nothing to replace in its pattern. */
  lemma {:induction false} CompiledCaptures(t: Template, syntax: AddressSyntax, values: map<ParamName, string>)
    requires GoodNames(Names(t)) && Names(t) != []
    requires Covers(values, t, syntax.separator) && EndsSegments(t, syntax.separator)
    requires syntax.patchRegex([Skip] + Items(t) + [End]) == [Skip] + Items(t) + [End]
    ensures var r := Compile(t, syntax);
      r.Ok? && MatchPath(r.value.regex, Format(t, values), syntax.separator) == Chosen(Names(t), values)
    ensures forall n :: n in Names(t) ==> n in values
  {
    CompiledIff(t, syntax);
    FormatThenMatch(t, values, syntax.separator);
  }

  // ----- whatever is captured was there -----

  ghost function Filled(t: Template, captures: Captures): string {
    if t == [] then ""
    else
      match t[0]
      case Chr(c) => [c] + Filled(t[1..], captures)
      case Par(_) => if captures == [] then Filled(t[1..], []) else captures[0].1 + Filled(t[1..], captures[1..])
  }

  ghost predicate CapturedIn(t: Template, captures: Captures, sep: char) {
    |captures| == |Names(t)| &&
    forall i :: 0 <= i < |captures| ==>
      captures[i].0 == Names(t)[i] && captures[i].1 != "" && sep !in captures[i].1
  }

  ghost predicate LineEnd(s: string) {
    s == "" || s == "\n"
  }

  lemma {:induction false} SegmentFree(s: string, n: nat, sep: char)
    requires n <= SegmentLength(s, sep)
    ensures sep !in s[..n]
  {
    if n > 0 {
      SegmentFree(s[1..], n - 1, sep);
      assert s[..n] == [s[0]] + s[1..][..n - 1];
    }
  }

  /** A piece of the subject, and what is filled in after it. */
  lemma {:induction false} PieceThenRest(s: string, n: nat, piece: string, filled: string)
    requires n <= |s| && piece == s[..n] && filled <= s[n..] && LineEnd(s[n..][|filled|..])
    ensures piece + filled <= s && LineEnd(s[|piece + filled|..])
  {
    assert s == s[..n] + s[n..];
    assert s[|piece + filled|..] == s[n..][|filled|..];
  }

  lemma {:induction false} CapturedMore(t: Template, value: string, rest: Captures, sep: char)
    requires t != [] && t[0].Par? && value != "" && sep !in value && CapturedIn(t[1..], rest, sep)
    ensures CapturedIn(t, [(t[0].name, value)] + rest, sep)
    ensures Filled(t, [(t[0].name, value)] + rest) == value + Filled(t[1..], rest)
  {
    assert Names(t) == [t[0].name] + Names(t[1..]);
    assert ([(t[0].name, value)] + rest)[1..] == rest;
  }

  lemma {:induction false} CapturedPast(t: Template, captures: Captures, sep: char)
    requires t != [] && t[0].Chr? && CapturedIn(t[1..], captures, sep)
    ensures CapturedIn(t, captures, sep) && Filled(t, captures) == [t[0].c] + Filled(t[1..], captures)
  {
    assert Names(t) == [] + Names(t[1..]) == Names(t[1..]);
  }

  /** Every match, from whatever subject, is the template filled with the captures. */
  lemma {:induction false} MatchSound(t: Template, s: string, sep: char, captures: Captures)
    requires Match(Items(t) + [End], s, sep) == Some(captures)
    ensures CapturedIn(t, captures, sep)
    ensures Filled(t, captures) <= s && LineEnd(s[|Filled(t, captures)|..])
    decreases |t|, |s| + 1
  {
    ItemsThenEnd(t);
    if t != [] {
      match t[0] {
        case Chr(c) =>
          MatchSound(t[1..], s[1..], sep, captures);
          CapturedPast(t, captures, sep);
          PieceThenRest(s, 1, [c], Filled(t[1..], captures));
        case Par(name) =>
          LongestSound(t, s, SegmentLength(s, sep), sep, captures);
      }
    }
  }

  lemma {:induction false} ItemsThenEnd(t: Template)
    ensures t == [] ==> Items(t) + [End] == [End] && [End][1..] == []
    ensures t != [] ==> (Items(t) + [End])[0] == Items([t[0]])[0] && (Items(t) + [End])[1..] == Items(t[1..]) + [End]
  {}

  lemma {:induction false} LongestSound(t: Template, s: string, n: nat, sep: char, captures: Captures)
    requires t != [] && t[0].Par? && n <= SegmentLength(s, sep)
    requires Longest(Items(t) + [End], s, n, sep) == Some(captures)
    ensures CapturedIn(t, captures, sep)
    ensures Filled(t, captures) <= s && LineEnd(s[|Filled(t, captures)|..])
    decreases |t|, n
  {
    ItemsThenEnd(t);
    var rest := Match(Items(t[1..]) + [End], s[n..], sep);
    if rest.Some? {
      MatchSound(t[1..], s[n..], sep, rest.value);
      SegmentFree(s, n, sep);
      CapturedMore(t, s[..n], rest.value, sep);
      PieceThenRest(s, n, s[..n], Filled(t[1..], rest.value));
    } else {
      LongestSound(t, s, n - 1, sep, captures);
    }
  }

  /** The whole pattern may first skip part of the line. */
  lemma {:induction false} PatternSound(t: Template, s: string, sep: char, captures: Captures) returns (k: nat)
    requires Match([Skip] + Items(t) + [End], s, sep) == Some(captures)
    ensures k <= |s| && '\n' !in s[..k] && CapturedIn(t, captures, sep)
    ensures Filled(t, captures) <= s[k..] && LineEnd(s[k..][|Filled(t, captures)|..])
  {
    k := ShortestSound(t, s, 0, sep, captures);
  }

  lemma {:induction false} ShortestSound(
    t: Template, s: string, from: nat, sep: char, captures: Captures) returns (k: nat)
    requires from <= |s| && '\n' !in s[..from]
    requires Shortest([Skip] + Items(t) + [End], s, from, sep) == Some(captures)
    ensures k <= |s| && '\n' !in s[..k] && CapturedIn(t, captures, sep)
    ensures Filled(t, captures) <= s[k..] && LineEnd(s[k..][|Filled(t, captures)|..])
    decreases |s| - from
  {
    var pattern := [Skip] + Items(t) + [End];
    assert pattern[1..] == Items(t) + [End];
    if Match(pattern[1..], s[from..], sep).Some? {
      k := from;
      MatchSound(t, s[from..], sep, captures);
    } else {
      assert s[..from + 1] == s[..from] + [s[from]];
      k := ShortestSound(t, s, from + 1, sep, captures);
    }
  }

  // ----- address objects -----

  class Address {
    const declaration: string
    const syntax: AddressSyntax
    const template: string
    var compiled: Option<Compiled>

    ghost function Compilation(): Result<Compiled, CompileError> {
      Compile(Tokens(Escape(declaration)), syntax)
    }

    ghost predicate Valid()
      reads this
    {
      template == TemplateOf(declaration) && (compiled.Some? ==> Compilation() == Ok(compiled.value))
    }

    constructor (declaration: string, syntax: AddressSyntax)
      ensures Valid() && this.declaration == declaration && this.syntax == syntax && compiled == None
    {
      this.declaration := declaration;
      this.syntax := syntax;
      this.template := TemplateOf(declaration);
      compiled := None;
    }

    /** `_compile`: a failed compilation is not cached and fails again. */
    method CompileOnce() returns (r: Result<Compiled, CompileError>)
      requires Valid()
      modifies this`compiled
      ensures Valid() && r == Compilation()
      ensures r.Ok? ==> compiled == Some(r.value)
      ensures r.Err? ==> compiled == None
    {
      if compiled.Some? {
        return Ok(compiled.value);
      }
      r := CompilePath(declaration, syntax);
      if r.Ok? {
        compiled := Some(r.value);
      }
    }

    method AddPrefix(prefix: string) returns (address: Address)
      requires Valid()
      ensures address.Valid() && address.declaration == prefix + declaration && address.syntax == syntax
      ensures prefix == "" ==> address == this
      ensures prefix != "" ==> fresh(address)
      ensures '{' !in prefix && '}' !in prefix ==>
                Tokens(Escape(address.declaration)) == Plain(Chars(prefix)) + Tokens(Escape(declaration))
      ensures '{' !in prefix && '}' !in prefix && Compilation().Ok? ==>
                address.Compilation().Ok? &&
                address.Compilation().value.address == prefix + Compilation().value.address
    {
      if prefix == "" {
        assert prefix + declaration == declaration;
        assert prefix + Restored([]) == [];
        PrefixReads(prefix, declaration);
        return this;
      }
      address := new Address(prefix + declaration, syntax);
      if '{' !in prefix && '}' !in prefix {
        PrefixReads(prefix, declaration);
        PrefixedAddress(prefix, declaration, syntax.replaceSymbol);
      }
    }
  }
}
