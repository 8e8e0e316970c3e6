/** Address templates: escaping, the parameter scanner, and the capture pattern. */
module AddressTemplates {
  import opened Wrappers

  /**
   * A character of an escaped path. The sentinels `__faststream_escaped_left__` and
   * `__faststream_escaped_right__` that stand for literal braces are symbols of their own.
   */
  datatype Sym = Ch(c: char) | EscapedLeft | EscapedRight

  /** A parameter name as scanned: it is text, but a sentinel may have got into it. */
  type ParamName = seq<Sym>

  /** A declaration as it was meant: characters and named parameters. */
  datatype Tok = Chr(c: char) | Par(name: ParamName)

  type Template = seq<Tok>

  predicate IsWord(c: char) {
    'a' <= c <= 'z' || 'A' <= c <= 'Z' || '0' <= c <= '9' || c == '_'
  }

  /** Both sentinels consist of word characters only. */
  predicate IsWordSym(s: Sym) {
    s.Ch? ==> IsWord(s.c)
  }

  function RestoredChar(s: Sym): char {
    match s
    case Ch(c) => c
    case EscapedLeft => '{'
    case EscapedRight => '}'
  }

  /** `_restore_braces`. */
  function Restored(s: seq<Sym>): string {
    seq(|s|, i requires 0 <= i < |s| => RestoredChar(s[i]))
  }

  function Chars(s: string): seq<Sym> {
    seq(|s|, i requires 0 <= i < |s| => Ch(s[i]))
  }

  // ----- escaping -----

  function Escape(path: string): seq<Sym> {
    if path == "" then []
    else if |path| > 1 && path[0] == path[1] == '{' then [EscapedLeft] + Escape(path[2..])
    else if |path| > 1 && path[0] == path[1] == '}' then [EscapedRight] + Escape(path[2..])
    else [Ch(path[0])] + Escape(path[1..])
  }

  method EscapeLiteralBraces(path: string) returns (result: seq<Sym>)
    ensures result == Escape(path)
  {
    result := [];
    var idx := 0;
    ghost var left := path;
    while idx < |path|
      invariant 0 <= idx <= |path| && left == path[idx..]
      invariant result + Escape(left) == Escape(path)
    {
      if idx + 1 < |path| && path[idx] == path[idx + 1] == '{' {
        Assoc(result, [EscapedLeft], Escape(left[2..]));
        result := result + [EscapedLeft];
        idx := idx + 2;
        left := left[2..];
      } else if idx + 1 < |path| && path[idx] == path[idx + 1] == '}' {
        Assoc(result, [EscapedRight], Escape(left[2..]));
        result := result + [EscapedRight];
        idx := idx + 2;
        left := left[2..];
      } else {
        Assoc(result, [Ch(path[idx])], Escape(left[1..]));
        result := result + [Ch(path[idx])];
        idx := idx + 1;
        left := left[1..];
      }
    }
  }

  // ----- the parameter scanner -----

  /** Where the run of word characters from `i` on ends. */
  function WordEnd(s: seq<Sym>, i: nat): (n: nat)
    requires i <= |s|
    ensures i <= n <= |s|
    decreases |s| - i
  {
    if i == |s| || !IsWordSym(s[i]) then i else WordEnd(s, i + 1)
  }

  /** The character before is an opening brace, which the lookbehind of PARAM_REGEX refuses. */
  predicate AfterBrace(s: seq<Sym>, i: nat)
    requires i <= |s|
  {
    i > 0 && s[i - 1] == Ch('{')
  }

  /** The end of the match of PARAM_REGEX that starts at `i`. */
  function MatchAt(s: seq<Sym>, i: nat): (end: Option<nat>)
    requires i <= |s|
    ensures end.Some? ==> i + 2 < end.value <= |s| && s[end.value - 1] == Ch('}')
  {
    if i == |s| || s[i] != Ch('{') || AfterBrace(s, i) then None
    else
      var close := WordEnd(s, i + 1);
      if i + 1 < close < |s| && s[close] == Ch('}') && (close + 1 == |s| || s[close + 1] != Ch('}')) then
        Some(close + 1)
      else None
  }

  /** The parameters that `finditer` finds from `i` on, and the characters around them. */
  function TokensAt(s: seq<Sym>, i: nat): Template
    requires i <= |s|
    decreases |s| - i
  {
    if i == |s| then []
    else
      var end := MatchAt(s, i);
      if end.Some? then [Par(s[i + 1..end.value - 1])] + TokensAt(s, end.value)
      else [Chr(RestoredChar(s[i]))] + TokensAt(s, i + 1)
  }

  function Tokens(s: seq<Sym>): Template {
    TokensAt(s, 0)
  }

  // ----- printing a template -----

  function PrintTok(t: Tok): string {
    match t
    case Chr(c) => if c == '{' then "{{" else if c == '}' then "}}" else [c]
    case Par(name) => "{" + Restored(name) + "}"
  }

  function Print(t: Template): string {
    if t == [] then "" else PrintTok(t[0]) + Print(t[1..])
  }

  ghost predicate IsName(name: ParamName) {
    name != [] && forall j :: 0 <= j < |name| ==> name[j].Ch? && IsWord(name[j].c)
  }

  ghost predicate WellNamed(t: Template) {
    forall i :: 0 <= i < |t| && t[i].Par? ==> IsName(t[i].name)
  }

  /** No literal closing brace stands right after a parameter. */
  ghost predicate NoCloseAfterParam(t: Template) {
    forall i :: 0 <= i < |t| - 1 && t[i].Par? ==> t[i + 1] != Chr('}')
  }

  function TokSyms(t: Tok): seq<Sym> {
    match t
    case Chr(c) => if c == '{' then [EscapedLeft] else if c == '}' then [EscapedRight] else [Ch(c)]
    case Par(name) => [Ch('{')] + name + [Ch('}')]
  }

  /** A brace that does not meet its like stays a character. */
  lemma {:induction false} EscapeSingle(c: char, rest: string)
    requires rest == "" || rest[0] != c || (c != '{' && c != '}')
    ensures Escape([c] + rest) == [Ch(c)] + Escape(rest)
  {
    assert ([c] + rest)[1..] == rest;
  }

  lemma {:induction false} EscapeWords(name: ParamName, rest: string)
    requires forall j :: 0 <= j < |name| ==> name[j].Ch? && IsWord(name[j].c)
    ensures Escape(Restored(name) + rest) == name + Escape(rest)
  {
    if name == [] {
      assert Restored(name) + rest == rest;
    } else {
      EscapeWords(name[1..], rest);
      EscapeWord(name, rest, Restored(name[1..]) + rest, Escape(rest));
    }
  }

  lemma {:induction false} EscapeWord(name: ParamName, rest: string, more: string, escaped: seq<Sym>)
    requires name != [] && name[0].Ch? && IsWord(name[0].c)
    requires more == Restored(name[1..]) + rest && Escape(more) == name[1..] + escaped
    ensures Escape(Restored(name) + rest) == name + escaped
  {
    assert Restored(name) + rest == [name[0].c] + more;
    EscapeSingle(name[0].c, more);
    assert [name[0]] + (name[1..] + escaped) == name + escaped;
  }

  lemma {:induction false} FirstPrinted(t: Template)
    requires WellNamed(t)
    ensures t == [] <==> Print(t) == ""
    ensures t != [] ==> Print(t)[0] == if t[0].Par? then '{' else t[0].c
    ensures t != [] ==> Escape(Print(t)) != [] && Escape(Print(t))[0] != Ch('}')
  {
    if t != [] {
      var p := Print(t);
      assert t[0] == Chr('}') ==> p[0] == p[1] == '}';
    }
  }

  lemma {:induction false} EscapeParam(name: ParamName, rest: string)
    requires IsName(name) && (rest == "" || rest[0] != '}')
    ensures Escape(PrintTok(Par(name)) + rest) == TokSyms(Par(name)) + Escape(rest)
  {
    var tail := "}" + rest;
    assert PrintTok(Par(name)) + rest == "{" + (Restored(name) + tail);
    assert (Restored(name) + tail)[0] == name[0].c;
    EscapeSingle('{', Restored(name) + tail);
    EscapeWords(name, tail);
    EscapeSingle('}', rest);
  }

  /** Escaping what was printed gives back the first token, then the escaped rest. */
  lemma {:induction false} EscapePrinted(t: Template)
    requires t != [] && WellNamed(t) && (|t| > 1 && t[0].Par? ==> t[1] != Chr('}'))
    ensures Escape(Print(t)) == TokSyms(t[0]) + Escape(Print(t[1..]))
  {
    var rest := Print(t[1..]);
    FirstPrinted(t[1..]);
    match t[0] {
      case Chr(c) =>
        if c == '{' || c == '}' {
          assert Print(t)[2..] == rest;
        } else {
          EscapeSingle(c, rest);
        }
      case Par(name) =>
        EscapeParam(name, rest);
    }
  }

  lemma {:induction false} WordEndIs(s: seq<Sym>, i: nat, n: nat)
    requires i <= n <= |s| && (forall j :: i <= j < n ==> IsWordSym(s[j])) && (n < |s| ==> !IsWordSym(s[n]))
    ensures WordEnd(s, i) == n
    decreases n - i
  {
    if i < n {
      WordEndIs(s, i + 1, n);
    }
  }

  lemma {:induction false} WordEndPast(s: seq<Sym>, i: nat, n: nat)
    requires i <= n <= |s| && forall j :: i <= j < n ==> IsWordSym(s[j])
    ensures WordEnd(s, i) >= n
    decreases n - i
  {
    if i < n {
      WordEndPast(s, i + 1, n);
    }
  }

  /** From position `k` on, `s` reads `b`, and no brace stands just before. */
  ghost predicate Continues(s: seq<Sym>, k: nat, b: seq<Sym>) {
    |s| == k + |b| && (forall j :: 0 <= j < |b| ==> s[k + j] == b[j]) && !AfterBrace(s, k)
  }

  lemma {:induction false} WordEndContinues(s: seq<Sym>, k: nat, b: seq<Sym>, i: nat)
    requires Continues(s, k, b) && i <= |b|
    ensures WordEnd(s, k + i) == k + WordEnd(b, i)
    decreases |b| - i
  {
    if i < |b| && IsWordSym(b[i]) {
      WordEndContinues(s, k, b, i + 1);
    }
  }

  lemma {:induction false} MatchContinues(s: seq<Sym>, k: nat, b: seq<Sym>, i: nat)
    requires Continues(s, k, b) && i <= |b|
    ensures MatchAt(s, k + i) == if MatchAt(b, i).Some? then Some(k + MatchAt(b, i).value) else None
  {
    if i < |b| {
      WordEndContinues(s, k, b, i + 1);
      assert i > 0 ==> s[k + (i - 1)] == b[i - 1];
      var close := WordEnd(b, i + 1);
      assert close < |b| ==> s[k + close] == b[close];
      assert close + 1 < |b| ==> s[k + (close + 1)] == b[close + 1];
    }
  }

  /** Reading does not depend on what was read before, unless that ends in an opening brace. */
  lemma {:induction false} TokensContinue(s: seq<Sym>, k: nat, b: seq<Sym>, i: nat)
    requires Continues(s, k, b) && i <= |b|
    ensures TokensAt(s, k + i) == TokensAt(b, i)
    decreases |b| - i
  {
    if i < |b| {
      if MatchAt(b, i).Some? {
        var end := MatchAt(b, i).value;
        TokensContinue(s, k, b, end);
        NextParamContinues(s, k, b, i, end, k + i, k + end, b[i + 1..end - 1]);
      } else {
        TokensContinue(s, k, b, i + 1);
        CharContinues(s, k, b, i);
      }
    }
  }

  lemma {:induction false} NextParamContinues(
    s: seq<Sym>, k: nat, b: seq<Sym>, i: nat, end: nat, i': nat, end': nat, name: ParamName)
    requires Continues(s, k, b) && i <= |b| && MatchAt(b, i) == Some(end) && name == b[i + 1..end - 1]
    requires i' == k + i && end' == k + end && TokensAt(s, end') == TokensAt(b, end)
    ensures TokensAt(s, i') == TokensAt(b, i)
  {
    SameName(s, k, b, i, end, i', end', name);
    ParamRead(s, i', end', b, i, end, name);
  }

  lemma {:induction false} ParamRead(
    s: seq<Sym>, i': nat, end': nat, b: seq<Sym>, i: nat, end: nat, name: ParamName)
    requires i <= |b| && MatchAt(b, i) == Some(end) && name == b[i + 1..end - 1]
    requires i' <= |s| && MatchAt(s, i') == Some(end') && name == s[i' + 1..end' - 1]
    requires TokensAt(s, end') == TokensAt(b, end)
    ensures TokensAt(s, i') == TokensAt(b, i)
  {
    ReadMatch(b, i, end, name);
    ReadMatch(s, i', end', name);
  }

  /** The match is the same further on, and so is the name in it. */
  lemma {:induction false} SameName(
    s: seq<Sym>, k: nat, b: seq<Sym>, i: nat, end: nat, i': nat, end': nat, name: ParamName)
    requires Continues(s, k, b) && i <= |b| && MatchAt(b, i) == Some(end) && name == b[i + 1..end - 1]
    requires i' == k + i && end' == k + end
    ensures i' <= |s| && MatchAt(s, i') == Some(end') && name == s[i' + 1..end' - 1]
  {
    MatchContinues(s, k, b, i);
    SameSlice(s, k, b, i + 1, end - 1, i' + 1, end' - 1);
  }

  lemma {:induction false} CharContinues(s: seq<Sym>, k: nat, b: seq<Sym>, i: nat)
    requires Continues(s, k, b) && i < |b| && MatchAt(b, i) == None && TokensAt(s, k + i + 1) == TokensAt(b, i + 1)
    ensures TokensAt(s, k + i) == TokensAt(b, i)
  {
    MatchContinues(s, k, b, i);
    ReadPast(b, i);
    ReadPast(s, k + i);
  }

  lemma {:induction false} ReadMatch(s: seq<Sym>, start: nat, end: nat, name: ParamName)
    requires start <= |s| && MatchAt(s, start) == Some(end) && name == s[start + 1..end - 1]
    ensures TokensAt(s, start) == [Par(name)] + TokensAt(s, end)
  {}

  lemma {:induction false} ReadPast(s: seq<Sym>, i: nat)
    requires i < |s| && MatchAt(s, i) == None
    ensures TokensAt(s, i) == [Chr(RestoredChar(s[i]))] + TokensAt(s, i + 1)
  {}

  lemma {:induction false} SameSlice(s: seq<Sym>, k: nat, b: seq<Sym>, i: nat, j: nat, i': nat, j': nat)
    requires Continues(s, k, b) && i <= j <= |b| && i' == k + i && j' == k + j
    ensures s[i'..j'] == b[i..j]
  {
    forall m | 0 <= m < j - i ensures s[i'..j'][m] == b[i..j][m] {
      assert s[k + (i + m)] == b[i + m];
    }
  }

  lemma {:induction false} TokensAfter(a: seq<Sym>, b: seq<Sym>)
    requires a == [] || a[|a| - 1] != Ch('{')
    ensures TokensAt(a + b, |a|) == Tokens(b)
  {
    TokensContinue(a + b, |a|, b, 0);
  }

  lemma {:induction false} MatchOfParam(name: ParamName, rest: seq<Sym>)
    requires IsName(name) && (rest != [] ==> rest[0] != Ch('}'))
    ensures MatchAt(TokSyms(Par(name)) + rest, 0) == Some(|name| + 2)
  {
    var s := TokSyms(Par(name)) + rest;
    forall j | 1 <= j < |name| + 1 ensures IsWordSym(s[j]) {
      assert s[j] == name[j - 1];
    }
    assert s[|name| + 1] == Ch('}');
    WordEndIs(s, 1, |name| + 1);
  }

  lemma {:induction false} TokensParam(name: ParamName, rest: seq<Sym>)
    requires IsName(name) && (rest != [] ==> rest[0] != Ch('}'))
    ensures Tokens(TokSyms(Par(name)) + rest) == [Par(name)] + Tokens(rest)
  {
    var s := TokSyms(Par(name)) + rest;
    MatchOfParam(name, rest);
    assert s[1..|name| + 1] == name;
    TokensAfter(TokSyms(Par(name)), rest);
  }

  lemma {:induction false} TokensStep(t: Tok, rest: seq<Sym>)
    requires WellNamed([t]) && (rest != [] ==> rest[0] != Ch('}'))
    ensures Tokens(TokSyms(t) + rest) == [t] + Tokens(rest)
  {
    match t {
      case Chr(c) =>
        TokensAfter(TokSyms(t), rest);
      case Par(name) =>
        assert [t][0] == t;
        TokensParam(name, rest);
    }
  }

  lemma {:induction false} ParsePrinted(t: Template)
    requires WellNamed(t) && NoCloseAfterParam(t)
    ensures Tokens(Escape(Print(t))) == t
  {
    if t != [] {
      EscapePrinted(t);
      FirstPrinted(t[1..]);
      assert WellNamed([t[0]]);
      TokensStep(t[0], Escape(Print(t[1..])));
      forall i | 0 <= i < |t| - 2 && t[1..][i].Par? ensures t[1..][i + 1] != Chr('}') {
        assert t[i + 1].Par?;
      }
      ParsePrinted(t[1..]);
    }
  }

  /** A literal closing brace after a parameter is read into the parameter's name. */
  lemma {:induction false} CloseIsSwallowed(name: ParamName, rest: string)
    requires IsName(name)
    ensures var s := Escape(PrintTok(Par(name)) + ("}}" + rest));
            s != [] && Tokens(s)[0] != Par(name)
  {
    var tail := "}}" + ("}" + rest);
    assert tail[2..] == "}" + rest;
    assert PrintTok(Par(name)) + ("}}" + rest) == "{" + (Restored(name) + tail);
    assert (Restored(name) + tail)[0] == name[0].c;
    EscapeSingle('{', Restored(name) + tail);
    EscapeWords(name, tail);
    var s := Escape("{" + (Restored(name) + tail));
    assert s == [Ch('{')] + (name + ([EscapedRight] + Escape("}" + rest)));
    ReadsOn(s, |name|);
  }

  lemma {:induction false} ReadsOn(s: seq<Sym>, n: nat)
    requires |s| > n + 1 && (forall j :: 1 <= j <= n ==> IsWordSym(s[j])) && s[n + 1] == EscapedRight
    ensures Tokens(s)[0].Par? ==> |Tokens(s)[0].name| > n
  {
    WordEndPast(s, 1, n + 2);
  }

  ghost predicate OffendsAt(t: Template, i: nat) {
    i + 1 < |t| && t[i].Par? && t[i + 1] == Chr('}')
  }

  lemma {:induction false} OffendingMisread(t: Template, i: nat)
    requires WellNamed(t) && OffendsAt(t, i)
    ensures Tokens(Escape(Print(t))) != t
  {
    if OffendsAt(t, 0) {
      assert t[1..][0] == t[1] && t[1..][1..] == t[2..];
      assert Print(t[1..]) == "}}" + Print(t[2..]);
      CloseIsSwallowed(t[0].name, Print(t[2..]));
    } else {
      OffendingMisread(t[1..], i - 1);
      FirstTokenRead(t);
    }
  }

  lemma {:induction false} FirstTokenRead(t: Template)
    requires t != [] && WellNamed(t) && !OffendsAt(t, 0)
    ensures Tokens(Escape(Print(t))) == [t[0]] + Tokens(Escape(Print(t[1..])))
  {
    EscapePrinted(t);
    FirstPrinted(t[1..]);
    assert WellNamed([t[0]]);
    TokensStep(t[0], Escape(Print(t[1..])));
  }

  /** Printing then scanning is the identity exactly without a literal `}` right after a parameter. */
  lemma {:induction false} PrintScanIff(t: Template)
    requires WellNamed(t)
    ensures Tokens(Escape(Print(t))) == t <==> NoCloseAfterParam(t)
  {
    if NoCloseAfterParam(t) {
      ParsePrinted(t);
    } else {
      var i :| 0 <= i < |t| - 1 && t[i].Par? && t[i + 1] == Chr('}');
      OffendingMisread(t, i);
    }
  }

  // ----- compiling -----

  /**
   * The capture pattern: `^.*?`, then literal characters and named groups, then `$`. Brokers put in
   * wildcards: one segment, the rest of a line of some minimal length, a separator and such a rest or nothing.
   */
  datatype Item = Skip | Lit(c: char) | Cap(name: ParamName) | End | Segment | Rest(min: nat) | OptionalRest

  type Pattern = seq<Item>

  datatype CompileError = DuplicateParams(names: set<ParamName>) | BadGroupName

  datatype Compiled = Compiled(regex: Option<Pattern>, address: string)

  datatype AddressSyntax = AddressSyntax(replaceSymbol: string, patchRegex: Pattern -> Pattern, separator: char)

  function Items(t: Template): Pattern {
    seq(|t|, i requires 0 <= i < |t| => match t[i] case Chr(c) => Lit(c) case Par(name) => Cap(name))
  }

  function NamePart(t: Tok): seq<ParamName> {
    if t.Par? then [t.name] else []
  }

  function Names(t: Template): seq<ParamName> {
    if t == [] then [] else NamePart(t[0]) + Names(t[1..])
  }

  function AddressPart(t: Tok, replaceSymbol: string): string {
    match t case Chr(c) => [c] case Par(_) => replaceSymbol
  }

  /** The address as the broker gets it: each parameter replaced. */
  function BrokerAddress(t: Template, replaceSymbol: string): string {
    if t == [] then "" else AddressPart(t[0], replaceSymbol) + BrokerAddress(t[1..], replaceSymbol)
  }

  /** The names that occur again after their first occurrence. */
  function Duplicated(names: seq<ParamName>): set<ParamName> {
    if names == [] then {}
    else
      var n := |names| - 1;
      Duplicated(names[..n]) + if names[n] in names[..n] then {names[n]} else {}
  }

  /** What Python's `re` accepts as a group name, among runs of word characters. */
  predicate IsGroupName(name: ParamName) {
    name != [] && !(name[0].Ch? && '0' <= name[0].c <= '9')
  }

  function Compile(t: Template, syntax: AddressSyntax): Result<Compiled, CompileError> {
    var names := Names(t);
    if Duplicated(names) != {} then Err(DuplicateParams(Duplicated(names)))
    else if exists i :: 0 <= i < |names| && !IsGroupName(names[i]) then Err(BadGroupName)
    else
      Ok(Compiled(
        if names == [] then None else Some(syntax.patchRegex([Skip] + Items(t) + [End])),
        BrokerAddress(t, syntax.replaceSymbol)))
  }

  // ----- the loop of `compile_path` -----

  function Plain(s: seq<Sym>): Template {
    seq(|s|, i requires 0 <= i < |s| => Chr(RestoredChar(s[i])))
  }

  /** `PARAM_REGEX.finditer`: the leftmost match from `from` on, if there is one. */
  method NextMatch(s: seq<Sym>, from: nat) returns (m: Option<(nat, nat)>)
    requires from <= |s|
    ensures m.Some? ==> from <= m.value.0 <= |s| && MatchAt(s, m.value.0) == Some(m.value.1)
    ensures forall j: nat :: from <= j < (if m.Some? then m.value.0 else |s|) ==> MatchAt(s, j) == None
  {
    var i := from;
    while i < |s|
      invariant from <= i <= |s|
      invariant forall j: nat :: from <= j < i ==> MatchAt(s, j) == None
    {
      var end := MatchAt(s, i);
      if end.Some? {
        return Some((i, end.value));
      }
      i := i + 1;
    }
    return None;
  }

  lemma {:induction false} TokensUpTo(s: seq<Sym>, from: nat, to: nat)
    requires from <= to <= |s| && forall j: nat :: from <= j < to ==> MatchAt(s, j) == None
    ensures TokensAt(s, from) == Plain(s[from..to]) + TokensAt(s, to)
    decreases |s| - from
  {
    if from < to {
      TokensUpTo(s, from + 1, to);
      PlainHead(s, from, to);
      Assoc([Chr(RestoredChar(s[from]))], Plain(s[from + 1..to]), TokensAt(s, to));
    } else {
      assert s[from..to] == [];
    }
  }

  lemma {:induction false} PlainHead(s: seq<Sym>, from: nat, to: nat)
    requires from < to <= |s|
    ensures Plain(s[from..to]) == [Chr(RestoredChar(s[from]))] + Plain(s[from + 1..to])
  {}

  lemma {:induction false} Assoc<T>(a: seq<T>, b: seq<T>, c: seq<T>)
    ensures a + (b + c) == (a + b) + c
  {}

  lemma {:induction false} ItemsAppend(t: Template, u: Template)
    ensures Items(t + u) == Items(t) + Items(u)
  {}

  lemma {:induction false} NamesAppend(t: Template, u: Template)
    ensures Names(t + u) == Names(t) + Names(u)
  {
    if t == [] {
      assert t + u == u;
    } else {
      NamesAppend(t[1..], u);
      assert (t + u)[1..] == t[1..] + u && (t + u)[0] == t[0];
      Assoc(NamePart(t[0]), Names(t[1..]), Names(u));
    }
  }

  lemma {:induction false} AddressAppend(t: Template, u: Template, r: string)
    ensures BrokerAddress(t + u, r) == BrokerAddress(t, r) + BrokerAddress(u, r)
  {
    if t == [] {
      assert t + u == u;
    } else {
      AddressAppend(t[1..], u, r);
      assert (t + u)[1..] == t[1..] + u && (t + u)[0] == t[0];
      Assoc(AddressPart(t[0], r), BrokerAddress(t[1..], r), BrokerAddress(u, r));
    }
  }

  lemma {:induction false} PlainTokens(s: seq<Sym>, r: string)
    ensures Names(Plain(s)) == [] && BrokerAddress(Plain(s), r) == Restored(s)
  {
    if s != [] {
      PlainTokens(s[1..], r);
      PlainFirst(s, Plain(s), Plain(s[1..]), r);
    }
  }

  lemma {:induction false} PlainFirst(s: seq<Sym>, t: Template, rest: Template, r: string)
    requires s != [] && t == [Chr(RestoredChar(s[0]))] + rest
    requires Names(rest) == [] && BrokerAddress(rest, r) == Restored(s[1..])
    ensures Names(t) == [] && BrokerAddress(t, r) == Restored(s)
  {
    assert t[1..] == rest && t[0] == Chr(RestoredChar(s[0]));
    assert NamePart(t[0]) + Names(rest) == [];
    RestoredFirst(s);
  }

  lemma {:induction false} RestoredFirst(s: seq<Sym>)
    requires s != []
    ensures Restored(s) == [RestoredChar(s[0])] + Restored(s[1..])
  {}

  lemma {:induction false} RestoredAppend(s: seq<Sym>, t: seq<Sym>)
    ensures Restored(s + t) == Restored(s) + Restored(t)
  {}

  lemma {:induction false} RestoredChars(r: string)
    ensures Restored(Chars(r)) == r
  {}

  lemma {:induction false} DuplicatedPlus(names: seq<ParamName>, name: ParamName)
    ensures Duplicated(names + [name]) == Duplicated(names) + if name in names then {name} else {}
    ensures (set n | n in names + [name]) == (set n | n in names) + {name}
  {
    assert (names + [name])[..|names|] == names;
  }

  /** What the loop of `compile_path` has built once the scanned part reads as `done`. */
  ghost predicate Built(done: Template, r: string, pathRegex: Pattern, originalPath: seq<Sym>, names: seq<ParamName>) {
    pathRegex == [Skip] + Items(done) && Restored(originalPath) == BrokerAddress(done, r) && names == Names(done)
  }

  lemma {:induction false} BuiltPlus(
    done: Template, r: string, pathRegex: Pattern, originalPath: seq<Sym>, names: seq<ParamName>, piece: Template,
    syms: seq<Sym>)
    requires Built(done, r, pathRegex, originalPath, names) && Restored(syms) == BrokerAddress(piece, r)
    ensures Built(done + piece, r, pathRegex + Items(piece), originalPath + syms, names + Names(piece))
  {
    ItemsAppend(done, piece);
    Assoc([Skip], Items(done), Items(piece));
    NamesAppend(done, piece);
    AddressAppend(done, piece, r);
    RestoredAppend(originalPath, syms);
  }

  /** The text up to a match. */
  lemma {:induction false} BuiltText(
    done: Template, r: string, pathRegex: Pattern, originalPath: seq<Sym>, names: seq<ParamName>, text: seq<Sym>)
    requires Built(done, r, pathRegex, originalPath, names)
    ensures Built(done + Plain(text), r, pathRegex + Items(Plain(text)), originalPath + text, names)
  {
    PlainTokens(text, r);
    BuiltPlus(done, r, pathRegex, originalPath, names, Plain(text), text);
    assert names + [] == names;
  }

  /** The parameter of a match. */
  lemma {:induction false} BuiltParam(
    done: Template, r: string, pathRegex: Pattern, originalPath: seq<Sym>, names: seq<ParamName>, name: ParamName)
    requires Built(done, r, pathRegex, originalPath, names)
    ensures Built(done + [Par(name)], r, pathRegex + [Cap(name)], originalPath + Chars(r), names + [name])
  {
    RestoredChars(r);
    var piece := [Par(name)];
    assert piece[1..] == [];
    assert Items(piece) == [Cap(name)];
    assert Names(piece) == [name] + [];
    assert BrokerAddress(piece, r) == r + [];
    BuiltPlus(done, r, pathRegex, originalPath, names, piece, Chars(r));
  }

  /** The scanned part grows by the text up to a match and its parameter. */
  lemma {:induction false} ScannedPlus(
    s: seq<Sym>, total: Template, done: Template, idx: nat, start: nat, end: nat, text: seq<Sym>, name: ParamName)
    requires idx <= start <= |s| && total == done + TokensAt(s, idx) && text == s[idx..start]
    requires MatchAt(s, start) == Some(end) && name == s[start + 1..end - 1]
    requires forall j: nat :: idx <= j < start ==> MatchAt(s, j) == None
    ensures total == ((done + Plain(text)) + [Par(name)]) + TokensAt(s, end)
  {
    TokensUpTo(s, idx, start);
    ReadMatch(s, start, end, name);
    Regroup(total, done, Plain(text), [Par(name)], TokensAt(s, end), TokensAt(s, start), TokensAt(s, idx));
  }

  lemma {:induction false} Regroup<T>(
    total: seq<T>, done: seq<T>, a: seq<T>, b: seq<T>, c: seq<T>, bc: seq<T>, abc: seq<T>)
    requires total == done + abc && abc == a + bc && bc == b + c
    ensures total == ((done + a) + b) + c
  {
    Assoc(done, a, bc);
    Assoc(done + a, b, c);
  }

  lemma {:induction false} ScannedRest(s: seq<Sym>, total: Template, done: Template, idx: nat)
    requires idx <= |s| && total == done + TokensAt(s, idx)
    requires forall j: nat :: idx <= j < |s| ==> MatchAt(s, j) == None
    ensures total == done + Plain(s[idx..])
  {
    TokensUpTo(s, idx, |s|);
    assert s[idx..|s|] == s[idx..];
  }

  method CompilePath(declaration: string, syntax: AddressSyntax) returns (r: Result<Compiled, CompileError>)
    ensures r == Compile(Tokens(Escape(declaration)), syntax)
  {
    var path := EscapeLiteralBraces(declaration);
    var pathRegex: Pattern := [Skip];
    var originalPath: seq<Sym> := [];
    var idx := 0;
    var names: seq<ParamName> := [];  // in the order of the groups
    var params: set<ParamName> := {};
    var duplicatedParams: set<ParamName> := {};

    ghost var total := Tokens(path);
    ghost var done: Template := [];
    assert path[0..] == path;
    var m := NextMatch(path, 0);
    while m.Some?
      invariant 0 <= idx <= |path|
      invariant m.Some? ==> idx <= m.value.0 <= |path| && MatchAt(path, m.value.0) == Some(m.value.1)
      invariant forall j: nat :: idx <= j < (if m.Some? then m.value.0 else |path|) ==> MatchAt(path, j) == None
      invariant total == done + TokensAt(path, idx)
      invariant Built(done, syntax.replaceSymbol, pathRegex, originalPath, names)
      invariant params == (set n | n in names) && duplicatedParams == Duplicated(names)
      decreases |path| - idx
    {
      var (start, end) := m.value;
      var paramName := path[start + 1..end - 1];
      var text := path[idx..start];
      ScannedPlus(path, total, done, idx, start, end, text, paramName);

      BuiltText(done, syntax.replaceSymbol, pathRegex, originalPath, names, text);
      pathRegex := pathRegex + Items(Plain(text));
      originalPath := originalPath + text;
      done := done + Plain(text);

      BuiltParam(done, syntax.replaceSymbol, pathRegex, originalPath, names, paramName);
      pathRegex := pathRegex + [Cap(paramName)];
      originalPath := originalPath + Chars(syntax.replaceSymbol);
      done := done + [Par(paramName)];
      DuplicatedPlus(names, paramName);
      if paramName in params {
        duplicatedParams := duplicatedParams + {paramName};
      } else {
        params := params + {paramName};
      }
      names := names + [paramName];
      idx := end;
      m := NextMatch(path, idx);
    }

    ScannedRest(path, total, done, idx);
    r := FinishPath(pathRegex, originalPath, names, duplicatedParams, path[idx..], syntax, done);
  }

  /** `compile_path` after its loop; no parameter means that `idx` is still 0. */
  method FinishPath(pathRegex: Pattern, originalPath: seq<Sym>, names: seq<ParamName>, duplicatedParams: set<ParamName>,
                    rest: seq<Sym>, syntax: AddressSyntax, ghost done: Template)
    returns (r: Result<Compiled, CompileError>)
    requires Built(done, syntax.replaceSymbol, pathRegex, originalPath, names) && duplicatedParams == Duplicated(names)
    ensures r == Compile(done + Plain(rest), syntax)
  {
    BuiltText(done, syntax.replaceSymbol, pathRegex, originalPath, names, rest);
    if duplicatedParams != {} {
      return Err(DuplicateParams(duplicatedParams));
    }
    var regex: Option<Pattern>;
    if names == [] {
      regex := None;
    } else {
      if exists i :: 0 <= i < |names| && !IsGroupName(names[i]) {
        return Err(BadGroupName);  // raised by re.compile
      }
      regex := Some(syntax.patchRegex(pathRegex + Items(Plain(rest)) + [End]));
    }
    return Ok(Compiled(regex, Restored(originalPath + rest)));
  }

  // ----- what a printed template compiles to -----

  function TokText(t: Tok): string {
    match t case Chr(c) => [c] case Par(name) => "{" + Restored(name) + "}"
  }

  /** The text of a template: literals as meant, parameters in braces. */
  function TemplateText(t: Template): string {
    if t == [] then "" else TokText(t[0]) + TemplateText(t[1..])
  }

  /** `_restore_literal_braces(declaration)`. */
  function TemplateOf(declaration: string): string {
    Restored(Escape(declaration))
  }

  lemma {:induction false} TokRestored(t: Tok)
    ensures Restored(TokSyms(t)) == TokText(t)
  {
    if t.Par? {
      RestoredAppend([Ch('{')] + t.name, [Ch('}')]);
      RestoredAppend([Ch('{')], t.name);
      assert Restored([Ch('{')]) == "{" && Restored([Ch('}')]) == "}";
    }
  }

  lemma {:induction false} TemplateOfPrinted(t: Template)
    requires WellNamed(t) && NoCloseAfterParam(t)
    ensures TemplateOf(Print(t)) == TemplateText(t)
  {
    if t != [] {
      EscapePrinted(t);
      RestoredAppend(TokSyms(t[0]), Escape(Print(t[1..])));
      TokRestored(t[0]);
      forall i | 0 <= i < |t| - 2 && t[1..][i].Par? ensures t[1..][i + 1] != Chr('}') {
        assert t[i + 1].Par?;
      }
      TemplateOfPrinted(t[1..]);
    }
  }

  ghost predicate GoodNames(names: seq<ParamName>) {
    (forall i, j :: 0 <= i < j < |names| ==> names[i] != names[j]) &&
    forall i :: 0 <= i < |names| ==> IsGroupName(names[i])
  }

  /**
   * Compiling what was printed: the parameters in order, each replaced in the broker
   * address, and no regex exactly when there are no parameters; names that repeat or start
   * with a digit are refused.
   */
  lemma {:induction false} CompilePrinted(t: Template, syntax: AddressSyntax)
    requires WellNamed(t) && NoCloseAfterParam(t)
    ensures var r := Compile(Tokens(Escape(Print(t))), syntax);
            (r.Ok? <==> GoodNames(Names(t))) &&
            (r.Ok? ==> r.value.address == BrokerAddress(t, syntax.replaceSymbol) &&
                       r.value.regex
                         == if Names(t) == [] then None else Some(syntax.patchRegex([Skip] + Items(t) + [End])))
  {
    ParsePrinted(t);
    CompiledIff(t, syntax);
  }

  lemma {:induction false} CompiledIff(t: Template, syntax: AddressSyntax)
    ensures Compile(t, syntax).Ok? <==> GoodNames(Names(t))
  {
    var names := Names(t);
    DuplicatedIff(names);
    if exists i :: 0 <= i < |names| && !IsGroupName(names[i]) {
      var i :| 0 <= i < |names| && !IsGroupName(names[i]);
      assert !GoodNames(names);
    }
  }

  lemma {:induction false} DuplicatedIff(names: seq<ParamName>)
    ensures Duplicated(names) == {} <==> forall i, j :: 0 <= i < j < |names| ==> names[i] != names[j]
  {
    if names != [] {
      var n := |names| - 1;
      DuplicatedIff(names[..n]);
      if names[n] in names[..n] {
        assert names[n] in Duplicated(names);
        var i :| 0 <= i < n && names[..n][i] == names[n];
        assert names[i] == names[n];
      } else {
        forall i | 0 <= i < n ensures names[i] != names[n] {
          assert names[..n][i] == names[i];
        }
        forall i, j | 0 <= i < j < n ensures names[i] == names[j] <==> names[..n][i] == names[..n][j] {
        }
      }
    }
  }

  /** A brace-free router prefix reads as characters in front of the declaration. */
  lemma {:induction false} PrefixReads(prefix: string, declaration: string)
    requires '{' !in prefix && '}' !in prefix
    ensures Tokens(Escape(prefix + declaration)) == Plain(Chars(prefix)) + Tokens(Escape(declaration))
  {
    if prefix == "" {
      assert prefix + declaration == declaration;
      assert Chars(prefix) == [];
    } else {
      var c, rest := prefix[0], prefix[1..];
      PrefixReads(rest, declaration);
      assert prefix + declaration == [c] + (rest + declaration);
      EscapeSingle(c, rest + declaration);
      CharReads(c, Escape(rest + declaration));
      assert Plain(Chars(prefix)) == [Chr(c)] + Plain(Chars(rest));
      Assoc([Chr(c)], Plain(Chars(rest)), Tokens(Escape(declaration)));
    }
  }

  lemma {:induction false} CharReads(c: char, s: seq<Sym>)
    requires c != '{'
    ensures Tokens([Ch(c)] + s) == [Chr(c)] + Tokens(s)
  {
    TokensAfter([Ch(c)], s);
  }

  /** So the broker address gets the prefix in front, and the parameters are the same. */
  lemma {:induction false} PrefixedAddress(prefix: string, declaration: string, r: string)
    requires '{' !in prefix && '}' !in prefix
    ensures var t, p := Tokens(Escape(declaration)), Tokens(Escape(prefix + declaration));
            BrokerAddress(p, r) == prefix + BrokerAddress(t, r) && Names(p) == Names(t)
  {
    PrefixReads(prefix, declaration);
    var t := Tokens(Escape(declaration));
    AddressAppend(Plain(Chars(prefix)), t, r);
    NamesAppend(Plain(Chars(prefix)), t);
    PlainTokens(Chars(prefix), r);
    RestoredChars(prefix);
  }
}
