/** Context repositories: global and scoped values, scope blocks, compositions and their merge. */
module Contexts {
  import opened Wrappers

  type Key = string
  type Value = string

  /** A context variable object and its current value; no value stands for EMPTY. */
  datatype Variable = Variable(id: nat, value: Option<Value>)

  /** What `ContextVar.set` returns: which variable was set, and what it held before. */
  datatype Token = Token(id: nat, before: Option<Value>)

  datatype Fault = UnknownKey | ForeignToken

  datatype Repo = Repo(globals: map<Key, Option<Value>>, scope: map<Key, Variable>, nextId: nat)

  // ----- single operations -----

  function GetLocal(r: Repo, key: Key): Option<Value> {
    if key in r.scope then r.scope[key].value else None
  }

  /** `get`: a global value hides a scoped one. */
  function GetAny(r: Repo, key: Key): Option<Value> {
    if key in r.globals && r.globals[key].Some? then r.globals[key] else GetLocal(r, key)
  }

  /** Variables are numbered in the order they were made. */
  ghost predicate Sane(r: Repo) {
    forall k :: k in r.scope ==> r.scope[k].id < r.nextId
  }

  /** A new repository knows only itself, by the name `context`. */
  function Blank(self: Value): Repo {
    Repo(map["context" := Some(self)], map[], 0)
  }

  function WithVariable(r: Repo, key: Key): (r': Repo)
    ensures key in r'.scope
  {
    if key in r.scope then r else r.(scope := r.scope[key := Variable(r.nextId, None)], nextId := r.nextId + 1)
  }

  function SetLocal(r: Repo, key: Key, value: Option<Value>): (Repo, Token) {
    var r' := WithVariable(r, key);
    var v := r'.scope[key];
    (r'.(scope := r'.scope[key := v.(value := value)]), Token(v.id, v.value))
  }

  function ResetLocal(r: Repo, key: Key, token: Token): Result<Repo, Fault> {
    if key !in r.scope then Err(UnknownKey)
    else if r.scope[key].id != token.id then Err(ForeignToken)
    else Ok(r.(scope := r.scope[key := Variable(token.id, token.before)]))
  }

  class ContextRepo {
    var globals: map<Key, Option<Value>>
    var scope: map<Key, Variable>
    var nextId: nat

    function State(): Repo
      reads this
    {
      Repo(globals, scope, nextId)
    }

    constructor (self: Value, initial: map<Key, Option<Value>>)
      ensures Sane(State())
      ensures State() == Blank(self).(globals := Blank(self).globals + initial)
    {
      globals, scope, nextId := map["context" := Some(self)] + initial, map[], 0;
    }

    method SetGlobal(key: Key, v: Option<Value>)
      modifies this
      ensures Sane(old(State())) ==> Sane(State())
      ensures State() == old(State()).(globals := old(globals)[key := v])
    {
      globals := globals[key := v];
    }

    method ResetGlobal(key: Key)
      modifies this
      ensures Sane(old(State())) ==> Sane(State())
      ensures State() == old(State()).(globals := old(globals) - {key})
    {
      globals := globals - {key};
    }

    method SetVar(key: Key, value: Option<Value>) returns (token: Token)
      modifies this
      ensures Sane(old(State())) ==> Sane(State())
      ensures (State(), token) == SetLocal(old(State()), key, value)
    {
      if key !in scope {
        scope := scope[key := Variable(nextId, None)];
        nextId := nextId + 1;
      }
      var v := scope[key];
      token := Token(v.id, v.value);
      scope := scope[key := v.(value := value)];
    }

    method ResetVar(key: Key, token: Token) returns (fault: Option<Fault>)
      modifies this
      ensures Sane(old(State())) ==> Sane(State())
      ensures match ResetLocal(old(State()), key, token)
              case Ok(r) => fault == None && State() == r
              case Err(f) => fault == Some(f) && State() == old(State())
    {
      if key !in scope {
        return Some(UnknownKey);
      }
      if scope[key].id != token.id {
        return Some(ForeignToken);
      }
      scope := scope[key := Variable(token.id, token.before)];
      return None;
    }

    method Clear(self: Value)
      modifies this
      ensures Sane(old(State())) ==> Sane(State())
      ensures State() == Blank(self).(nextId := old(nextId))
    {
      globals := map["context" := Some(self)];
      scope := map[];
    }
  }

  // ----- scope blocks -----

  type Items = seq<(Key, Option<Value>)>
  type Tokens = seq<(Key, Token)>

  /** Entering sets the items in order. */
  function Enter(r: Repo, items: Items): (Repo, Tokens)
    decreases |items|
  {
    if items == [] then (r, [])
    else
      var (r1, token) := SetLocal(r, items[0].0, items[0].1);
      var (r2, tokens) := Enter(r1, items[1..]);
      (r2, [(items[0].0, token)] + tokens)
  }

  /** Leaving resets the tokens, the last one first. */
  function Exit(r: Repo, tokens: Tokens): Result<Repo, Fault>
    decreases |tokens|
  {
    if tokens == [] then Ok(r)
    else
      var inner := Exit(r, tokens[1..]);
      if inner.Err? then inner else ResetLocal(inner.value, tokens[0].0, tokens[0].1)
  }

  class ContextScope {
    const repo: ContextRepo
    const items: Items
    var tokens: Tokens

    constructor (repo: ContextRepo, items: Items)
      ensures this.repo == repo && this.items == items && tokens == []
    {
      this.repo, this.items, tokens := repo, items, [];
    }

    method EnterBlock()
      modifies this, repo
      ensures (repo.State(), tokens) == Enter(old(repo.State()), items)
    {
      tokens := [];
      ghost var goal := Enter(repo.State(), items);
      assert items[0..] == items && items[|items|..] == [];
      for i := 0 to |items|
        invariant Enter(repo.State(), items[i..]).0 == goal.0
        invariant tokens + Enter(repo.State(), items[i..]).1 == goal.1
      {
        assert items[i..][1..] == items[i + 1..];
        var token := repo.SetVar(items[i].0, items[i].1);
        tokens := tokens + [(items[i].0, token)];
      }
      assert Enter(repo.State(), []) == (repo.State(), []) && tokens + [] == tokens;
    }

    method ExitBlock() returns (fault: Option<Fault>)
      modifies repo
      ensures match Exit(old(repo.State()), tokens)
              case Ok(r) => fault == None && repo.State() == r
              case Err(f) => fault == Some(f)
    {
      assert tokens[|tokens|..] == [];
      for i := |tokens| downto 0
        invariant Exit(old(repo.State()), tokens[i..]) == Ok(repo.State())
      {
        assert tokens[i..][1..] == tokens[i + 1..];
        fault := repo.ResetVar(tokens[i].0, tokens[i].1);
        if fault.Some? {
          FailsAbove(old(repo.State()), tokens, i, fault.value);
          return;
        }
      }
      assert tokens[0..] == tokens;
      return None;
    }
  }

  lemma {:induction false} FailsAbove(r: Repo, tokens: Tokens, i: nat, f: Fault)
    requires i <= |tokens| && Exit(r, tokens[i..]) == Err(f)
    ensures Exit(r, tokens) == Err(f)
  {
    if i == 0 {
      assert tokens[0..] == tokens;
    } else {
      assert tokens[i - 1..][1..] == tokens[i..];
      FailsAbove(r, tokens, i - 1, f);
    }
  }

  // ----- programs of nested blocks -----

  datatype Stmt =
    | Block(items: Items, body: seq<Stmt>)
    | Set(key: Key, value: Option<Value>)
    | SetGlobal(name: Key, v: Option<Value>)
    | ResetGlobal(name: Key)
    | Clear(self: Value)

  function Run(r: Repo, program: seq<Stmt>): Result<Repo, Fault>
    decreases program
  {
    if program == [] then Ok(r)
    else
      var first := RunOne(r, program[0]);
      if first.Err? then first else Run(first.value, program[1..])
  }

  function RunOne(r: Repo, s: Stmt): Result<Repo, Fault>
    decreases s
  {
    match s
    case Set(key, value) => Ok(SetLocal(r, key, value).0)
    case SetGlobal(name, v) => Ok(r.(globals := r.globals[name := v]))
    case ResetGlobal(name) => Ok(r.(globals := r.globals - {name}))
    case Clear(self) => Ok(Blank(self).(nextId := r.nextId))
    case Block(items, body) =>
      var (entered, tokens) := Enter(r, items);
      var inside := Run(entered, body);
      if inside.Err? then inside else Exit(inside.value, tokens)
  }

  ghost predicate ItemKey(items: Items, key: Key) {
    exists i :: 0 <= i < |items| && items[i].0 == key
  }

  /** The value given for a key by its last item. */
  function LastValue(items: Items, key: Key): Option<Value> {
    if items == [] then None
    else if items[|items| - 1].0 == key then items[|items| - 1].1
    else LastValue(items[..|items| - 1], key)
  }

  /** Every variable of `r` is still there in `t`. */
  ghost predicate KeepsVariables(r: Repo, t: Repo) {
    r.nextId <= t.nextId && forall k :: k in r.scope ==> k in t.scope && t.scope[k].id == r.scope[k].id
  }

  /** Every variable of `t` was made by `r`'s time or later, as number `n` or above. */
  ghost predicate MadeSince(t: Repo, n: nat) {
    forall k :: k in t.scope ==> n <= t.scope[k].id < t.nextId
  }

  /** What `t` has besides the variables of `r` was made later. */
  ghost predicate MadeLater(r: Repo, t: Repo) {
    r.nextId <= t.nextId && Sane(t) &&
    forall k :: k in t.scope && t.scope[k].id < r.nextId ==> k in r.scope && r.scope[k].id == t.scope[k].id
  }

  lemma {:induction false} EnterKeeps(r: Repo, items: Items)
    ensures KeepsVariables(r, Enter(r, items).0)
    ensures forall k :: !ItemKey(items, k) ==> GetLocal(Enter(r, items).0, k) == GetLocal(r, k)
    ensures Enter(r, items).0.globals == r.globals
    decreases |items|
  {
    if items != [] {
      var r1 := SetLocal(r, items[0].0, items[0].1).0;
      EnterKeeps(r1, items[1..]);
      forall k ensures ItemKey(items, k) <==> items[0].0 == k || ItemKey(items[1..], k) {
        SplitKey(items, k);
      }
    }
  }

  /** Inside the block each key of the items has the last value given for it. */
  lemma {:induction false} EnterSets(r: Repo, items: Items, key: Key)
    requires ItemKey(items, key)
    ensures GetLocal(Enter(r, items).0, key) == LastValue(items, key)
  {
    var n := |items| - 1;
    var before := Enter(r, items[..n]).0;
    EnterAppend(r, items[..n], items[n]);
    assert items == items[..n] + [items[n]];
    if items[n].0 != key {
      var i :| 0 <= i < |items| && items[i].0 == key;
      assert items[..n][i].0 == key;
      EnterSets(r, items[..n], key);
    }
  }

  lemma {:induction false} EnterAppend(r: Repo, items: Items, item: (Key, Option<Value>))
    ensures Enter(r, items + [item]).0 == SetLocal(Enter(r, items).0, item.0, item.1).0
    decreases |items|
  {
    if items == [] {
      assert ([] + [item])[1..] == [];
    } else {
      assert (items + [item])[1..] == items[1..] + [item];
      EnterAppend(SetLocal(r, items[0].0, items[0].1).0, items[1..], item);
    }
  }

  /** Leaving restores the items' keys, whatever happened to the values in between. */
  lemma {:induction false} ExitRestores(r: Repo, items: Items, t: Repo)
    requires KeepsVariables(Enter(r, items).0, t)
    ensures var left := Exit(t, Enter(r, items).1);
            left.Ok? && KeepsVariables(t, left.value) && left.value.globals == t.globals &&
            forall k :: GetLocal(left.value, k) == if ItemKey(items, k) then GetLocal(r, k) else GetLocal(t, k)
    decreases |items|
  {
    if items != [] {
      var (r1, token) := SetLocal(r, items[0].0, items[0].1);
      var (r2, tokens) := Enter(r1, items[1..]);
      assert Enter(r, items).1[1..] == tokens;
      ExitRestores(r1, items[1..], t);
      EnterKeeps(r1, items[1..]);
      forall k ensures ItemKey(items, k) <==> items[0].0 == k || ItemKey(items[1..], k) {
        SplitKey(items, k);
      }
    }
  }

  lemma {:induction false} SplitKey(items: Items, k: Key)
    requires items != []
    ensures ItemKey(items, k) <==> items[0].0 == k || ItemKey(items[1..], k)
  {
    if ItemKey(items, k) && items[0].0 != k {
      var i :| 0 <= i < |items| && items[i].0 == k;
      assert items[1..][i - 1].0 == k;
    }
    if ItemKey(items[1..], k) {
      var i :| 0 <= i < |items| - 1 && items[1..][i].0 == k;
      assert items[i + 1].0 == k;
    }
  }

  // ----- which programs fail -----

  /** Whether `clear` is called anywhere in a program. */
  predicate Clears(program: seq<Stmt>)
    decreases program
  {
    program != [] && (ClearsOne(program[0]) || Clears(program[1..]))
  }

  predicate ClearsOne(s: Stmt)
    decreases s
  {
    s.Clear? || (s.Block? && Clears(s.body))
  }

  /** Whether `clear` is called somewhere inside a block that holds tokens. */
  predicate ClearsInside(program: seq<Stmt>)
    decreases program
  {
    program != [] && (ClearsInsideOne(program[0]) || ClearsInside(program[1..]))
  }

  predicate ClearsInsideOne(s: Stmt)
    decreases s
  {
    s.Block? && ((s.items != [] && Clears(s.body)) || ClearsInside(s.body))
  }

  /** Variables have been cleared since `r`, or are all still there. */
  ghost predicate Grown(r: Repo, t: Repo, cleared: bool) {
    MadeLater(r, t) && if cleared then MadeSince(t, r.nextId) else KeepsVariables(r, t)
  }

  lemma {:induction false} GrownTwice(r: Repo, t: Repo, u: Repo, c: bool, d: bool)
    requires Grown(r, t, c) && Grown(t, u, d)
    ensures Grown(r, u, c || d)
  {
  }

  lemma {:induction false} EnterGrows(r: Repo, items: Items)
    requires Sane(r)
    ensures Grown(r, Enter(r, items).0, false)
    ensures forall i :: 0 <= i < |Enter(r, items).1| ==> Enter(r, items).1[i].1.id < Enter(r, items).0.nextId
    ensures |Enter(r, items).1| == |items|
    decreases |items|
  {
    if items != [] {
      var (r1, token) := SetLocal(r, items[0].0, items[0].1);
      EnterGrows(r1, items[1..]);
      GrownTwice(r, r1, Enter(r1, items[1..]).0, false, false);
    }
  }

  lemma {:induction false} ResetGrows(t: Repo, key: Key, token: Token)
    requires Sane(t) && ResetLocal(t, key, token).Ok?
    ensures Grown(t, ResetLocal(t, key, token).value, false)
  {
  }

  lemma {:induction false} ExitGrows(t: Repo, tokens: Tokens)
    requires Sane(t) && Exit(t, tokens).Ok?
    ensures Grown(t, Exit(t, tokens).value, false)
    decreases |tokens|
  {
    if tokens != [] {
      ExitGrows(t, tokens[1..]);
      var u := Exit(t, tokens[1..]).value;
      ResetGrows(u, tokens[0].0, tokens[0].1);
      GrownTwice(t, u, Exit(t, tokens).value, false, false);
    }
  }

  /** Tokens of variables that have been cleared cannot be reset, even if their keys are set again. */
  lemma {:induction false} ExitFails(t: Repo, tokens: Tokens, n: nat)
    requires tokens != [] && MadeSince(t, n) && forall i :: 0 <= i < |tokens| ==> tokens[i].1.id < n
    ensures Exit(t, tokens).Err?
    decreases |tokens|
  {
    if tokens[1..] != [] {
      ExitFails(t, tokens[1..], n);
    }
  }

  /** A program fails exactly if `clear` is called inside a block with items; otherwise it only adds variables. */
  lemma {:induction false} RunFailsIff(r: Repo, program: seq<Stmt>)
    requires Sane(r)
    ensures Run(r, program).Err? <==> ClearsInside(program)
    ensures Run(r, program).Ok? ==> Grown(r, Run(r, program).value, Clears(program))
    decreases program
  {
    if program != [] {
      RunOneFailsIff(r, program[0]);
      var first := RunOne(r, program[0]);
      if first.Ok? {
        RunFailsIff(first.value, program[1..]);
        if Run(r, program).Ok? {
          GrownTwice(r, first.value, Run(r, program).value, ClearsOne(program[0]), Clears(program[1..]));
        }
      }
    }
  }

  lemma {:induction false} RunOneFailsIff(r: Repo, s: Stmt)
    requires Sane(r)
    ensures RunOne(r, s).Err? <==> ClearsInsideOne(s)
    ensures RunOne(r, s).Ok? ==> Grown(r, RunOne(r, s).value, ClearsOne(s))
    decreases s
  {
    if s.Block? {
      var (entered, tokens) := Enter(r, s.items);
      EnterGrows(r, s.items);
      RunFailsIff(entered, s.body);
      var inside := Run(entered, s.body);
      if inside.Ok? {
        BlockEnds(r, s, entered, tokens, inside.value);
      }
    }
  }

  lemma {:induction false} BlockEnds(r: Repo, s: Stmt, entered: Repo, tokens: Tokens, inside: Repo)
    requires Sane(r) && s.Block? && Enter(r, s.items) == (entered, tokens) && Run(entered, s.body) == Ok(inside)
    requires Grown(entered, inside, Clears(s.body)) && !ClearsInside(s.body)
    ensures RunOne(r, s).Err? <==> ClearsInsideOne(s)
    ensures RunOne(r, s).Ok? ==> Grown(r, RunOne(r, s).value, ClearsOne(s))
  {
    EnterGrows(r, s.items);
    if s.items != [] && Clears(s.body) {
      ExitFails(inside, tokens, entered.nextId);
    } else {
      if !Clears(s.body) {
        ExitRestores(r, s.items, inside);
      }
      ExitGrows(inside, tokens);
      GrownTwice(r, entered, inside, false, Clears(s.body));
      GrownTwice(r, inside, Exit(inside, tokens).value, Clears(s.body), false);
    }
  }

  /**
   * After a block, the keys of its items read as before it, and every other key as the
   * body left it.
   */
  lemma {:induction false} BlockRestores(r: Repo, items: Items, body: seq<Stmt>, key: Key)
    requires Sane(r) && !ClearsInsideOne(Block(items, body))
    ensures RunOne(r, Block(items, body)).Ok? && Run(Enter(r, items).0, body).Ok?
    ensures GetLocal(RunOne(r, Block(items, body)).value, key)
         == if ItemKey(items, key) then GetLocal(r, key) else GetLocal(Run(Enter(r, items).0, body).value, key)
  {
    var entered := Enter(r, items).0;
    EnterGrows(r, items);
    RunFailsIff(entered, body);
    if items != [] {
      ExitRestores(r, items, Run(entered, body).value);
    }
  }

  /** Scoped values are set by blocks only. */
  ghost predicate Scoped(program: seq<Stmt>)
    decreases program
  {
    program == [] || (ScopedOne(program[0]) && Scoped(program[1..]))
  }

  ghost predicate ScopedOne(s: Stmt)
    decreases s
  {
    !s.Set? && !s.Clear? && (s.Block? ==> Scoped(s.body))
  }

  lemma {:induction false} ScopedNeverClears(program: seq<Stmt>)
    requires Scoped(program)
    ensures !Clears(program) && !ClearsInside(program)
    decreases program
  {
    if program != [] {
      ScopedNeverClears(program[1..]);
      if program[0].Block? {
        ScopedNeverClears(program[0].body);
      }
    }
  }

  /** A program that sets scoped values only through blocks leaves every scoped lookup as it was. */
  lemma {:induction false} ScopedProgramRestores(r: Repo, program: seq<Stmt>, key: Key)
    requires Sane(r) && Scoped(program)
    ensures Run(r, program).Ok? && GetLocal(Run(r, program).value, key) == GetLocal(r, key)
    decreases program
  {
    ScopedNeverClears(program);
    RunFailsIff(r, program);
    if program != [] {
      ScopedStatementRestores(r, program[0], key);
      RunOneFailsIff(r, program[0]);
      ScopedProgramRestores(RunOne(r, program[0]).value, program[1..], key);
    }
  }

  lemma {:induction false} ScopedStatementRestores(r: Repo, s: Stmt, key: Key)
    requires Sane(r) && ScopedOne(s)
    ensures RunOne(r, s).Ok? && GetLocal(RunOne(r, s).value, key) == GetLocal(r, key)
    decreases s
  {
    if s.Block? {
      var entered := Enter(r, s.items).0;
      ScopedNeverClears(s.body);
      BlockRestores(r, s.items, s.body, key);
      EnterKeeps(r, s.items);
      EnterGrows(r, s.items);
      ScopedProgramRestores(entered, s.body, key);
    }
  }

  // ----- compositions -----

  /** A repository, or a composition: its inner repository and the contexts behind it. */
  datatype Context = Plain(repo: Repo) | Composed(inner: Repo, contexts: seq<Context>)

  /** `get` and `get_local` of a context: the first hit, the inner repository first. */
  function Lookup(c: Context, key: Key, localOnly: bool): Option<Value>
    decreases c
  {
    match c
    case Plain(r) => Found(r, key, localOnly)
    case Composed(inner, contexts) =>
      var v := Found(inner, key, localOnly);
      if v.Some? then v else FirstHit(contexts, key, localOnly)
  }

  function FirstHit(contexts: seq<Context>, key: Key, localOnly: bool): Option<Value>
    decreases contexts
  {
    if contexts == [] then None
    else
      var v := Lookup(contexts[0], key, localOnly);
      if v.Some? then v else FirstHit(contexts[1..], key, localOnly)
  }

  function Found(r: Repo, key: Key, localOnly: bool): Option<Value> {
    if localOnly then GetLocal(r, key) else GetAny(r, key)
  }

  /** The repositories of a context in the order they are asked. */
  function Flat(c: Context): seq<Repo>
    decreases c
  {
    match c
    case Plain(r) => [r]
    case Composed(inner, contexts) => [inner] + FlatAll(contexts)
  }

  function FlatAll(contexts: seq<Context>): seq<Repo>
    decreases contexts
  {
    if contexts == [] then [] else Flat(contexts[0]) + FlatAll(contexts[1..])
  }

  function FirstFound(repos: seq<Repo>, key: Key, localOnly: bool): Option<Value> {
    if repos == [] then None
    else if Found(repos[0], key, localOnly).Some? then Found(repos[0], key, localOnly)
    else FirstFound(repos[1..], key, localOnly)
  }

  lemma {:induction false} FirstFoundAppend(a: seq<Repo>, b: seq<Repo>, key: Key, localOnly: bool)
    ensures FirstFound(a + b, key, localOnly)
         == if FirstFound(a, key, localOnly).Some? then FirstFound(a, key, localOnly) else FirstFound(b, key, localOnly)
  {
    if a == [] {
      assert a + b == b;
    } else {
      assert (a + b)[1..] == a[1..] + b;
      FirstFoundAppend(a[1..], b, key, localOnly);
    }
  }

  /** However compositions are nested, they look up as the flat list of their repositories. */
  lemma {:induction false} LooksUpFlat(c: Context, key: Key, localOnly: bool)
    ensures Lookup(c, key, localOnly) == FirstFound(Flat(c), key, localOnly)
    decreases c
  {
    match c {
      case Plain(r) =>
        assert [r][1..] == [];
      case Composed(inner, contexts) =>
        HitsFlat(contexts, key, localOnly);
        assert Flat(c)[1..] == FlatAll(contexts);
    }
  }

  lemma {:induction false} HitsFlat(contexts: seq<Context>, key: Key, localOnly: bool)
    ensures FirstHit(contexts, key, localOnly) == FirstFound(FlatAll(contexts), key, localOnly)
    decreases contexts
  {
    if contexts != [] {
      LooksUpFlat(contexts[0], key, localOnly);
      HitsFlat(contexts[1..], key, localOnly);
      FirstFoundAppend(Flat(contexts[0]), FlatAll(contexts[1..]), key, localOnly);
    }
  }

  /** A scope program run on a composition writes its inner repository only, and restores every scoped lookup. */
  lemma {:induction false} ComposedProgramRestores(inner: Repo, contexts: seq<Context>, program: seq<Stmt>, key: Key)
    requires Sane(inner) && Scoped(program)
    ensures Run(inner, program).Ok?
    ensures Lookup(Composed(Run(inner, program).value, contexts), key, true)
         == Lookup(Composed(inner, contexts), key, true)
  {
    ScopedProgramRestores(inner, program, key);
  }

  /** What a composition is made of: repositories, or compositions again. */
  datatype Member = Single(repo: ContextRepo) | Nested(composition: ContextRepoComposition)
  {
    ghost function Repos(): set<ContextRepo> {
      match this case Single(r) => {r} case Nested(c) => c.repos
    }

    ghost function Height(): nat {
      match this case Single(_) => 0 case Nested(c) => c.height
    }
  }

  ghost function ReposOf(members: seq<Member>): set<ContextRepo> {
    if members == [] then {} else members[0].Repos() + ReposOf(members[1..])
  }

  ghost function HeightOf(members: seq<Member>): nat {
    if members == [] then 0
    else
      var n := HeightOf(members[1..]);
      if members[0].Height() > n then members[0].Height() else n
  }

  ghost predicate AllValid(members: seq<Member>)
    decreases HeightOf(members), |members|
  {
    members == [] ||
    ((members[0].Nested? ==> members[0].composition.Valid()) && AllValid(members[1..]))
  }

  ghost function StatesOf(members: seq<Member>): (states: seq<Context>)
    requires AllValid(members)
    reads ReposOf(members)
    decreases HeightOf(members), |members| + 1
  {
    if members == [] then []
    else
      [StateOf(members[0])] + StatesOf(members[1..])
  }

  ghost function StateOf(member: Member): Context
    requires member.Nested? ==> member.composition.Valid()
    reads member.Repos()
    decreases member.Height(), 1
  {
    match member case Single(r) => Plain(r.State()) case Nested(c) => c.State()
  }

  /** Members from `i` on: the first of them, and the search among the others. */
  lemma {:induction false} MembersFrom(members: seq<Member>, i: nat, key: Key, localOnly: bool)
    requires i < |members| && AllValid(members[i..])
    ensures members[i].Nested? ==> members[i].composition.Valid()
    ensures AllValid(members[i + 1..])
    ensures ReposOf(members[i..]) == members[i].Repos() + ReposOf(members[i + 1..])
    ensures HeightOf(members[i + 1..]) <= HeightOf(members[i..]) && members[i].Height() <= HeightOf(members[i..])
    ensures var v := Lookup(StateOf(members[i]), key, localOnly);
      FirstHit(StatesOf(members[i..]), key, localOnly)
        == if v.Some? then v else FirstHit(StatesOf(members[i + 1..]), key, localOnly)
  {
    assert members[i..][0] == members[i] && members[i..][1..] == members[i + 1..];
    assert StatesOf(members[i..])[1..] == StatesOf(members[i + 1..]);
  }

  method NewInner(ghost behind: set<ContextRepo>) returns (r: ContextRepo)
    ensures fresh(r) && r !in behind && r.State() == Blank("inner")
  {
    r := new ContextRepo("inner", map[]);
  }

  /** The writes of a composition go to its inner repository; the ones behind it are read only. */
  class ContextRepoComposition {
    const inner: ContextRepo
    const contexts: seq<Member>
    ghost const repos: set<ContextRepo>  // its own inner repository and all behind it
    ghost const height: nat

    ghost predicate Valid()
      decreases height, 0
    {
      repos == {inner} + ReposOf(contexts) && inner !in ReposOf(contexts) &&
      HeightOf(contexts) < height && AllValid(contexts)
    }

    constructor (contexts: seq<Member>, self: Value)
      requires AllValid(contexts)
      ensures Valid() && this.contexts == contexts && fresh(inner)
      ensures State() == Composed(Blank(self), StatesOf(contexts))
    {
      ghost var behind := ReposOf(contexts);
      var r := NewInner(behind);
      this.contexts, inner := contexts, r;
      repos := {r} + behind;
      height := HeightOf(contexts) + 1;
      new;
      inner.SetGlobal("context", Some(self));
    }

    ghost function State(): Context
      requires Valid()
      reads repos
      decreases height, 0
    {
      Composed(inner.State(), StatesOf(contexts))
    }

    method SetGlobal(key: Key, v: Option<Value>)
      requires Valid()
      modifies inner
      ensures inner.State() == old(inner.State()).(globals := old(inner.globals)[key := v])
      ensures State() == Composed(inner.State(), old(State()).contexts)
    {
      inner.SetGlobal(key, v);
    }

    method ResetGlobal(key: Key)
      requires Valid()
      modifies inner
      ensures inner.State() == old(inner.State()).(globals := old(inner.globals) - {key})
      ensures State() == Composed(inner.State(), old(State()).contexts)
    {
      inner.ResetGlobal(key);
    }

    method Clear(self: Value)
      requires Valid()
      modifies inner
      ensures inner.State() == Blank(self).(nextId := old(inner.nextId))
      ensures State() == Composed(inner.State(), old(State()).contexts)
    {
      inner.Clear("inner");
      inner.SetGlobal("context", Some(self));
    }

    method SetVar(key: Key, value: Option<Value>) returns (token: Token)
      requires Valid()
      modifies inner
      ensures (inner.State(), token) == SetLocal(old(inner.State()), key, value)
      ensures State() == Composed(inner.State(), old(State()).contexts)
    {
      token := inner.SetVar(key, value);
    }

    method ResetVar(key: Key, token: Token) returns (fault: Option<Fault>)
      requires Valid()
      modifies inner
      ensures match ResetLocal(old(inner.State()), key, token)
              case Ok(r) => fault == None && inner.State() == r
              case Err(f) => fault == Some(f) && inner.State() == old(inner.State())
      ensures State() == Composed(inner.State(), old(State()).contexts)
    {
      fault := inner.ResetVar(key, token);
    }

    method Get(key: Key) returns (v: Option<Value>)
      requires Valid()
      ensures v == Lookup(State(), key, false)
    {
      v := Search(key, false);
    }

    method GetLocal(key: Key) returns (v: Option<Value>)
      requires Valid()
      ensures v == Lookup(State(), key, true)
    {
      v := Search(key, true);
    }

    /** The loop of both. */
    method Search(key: Key, localOnly: bool) returns (v: Option<Value>)
      requires Valid()
      ensures v == Lookup(State(), key, localOnly)
      decreases height
    {
      v := Found(inner.State(), key, localOnly);
      if v.Some? {
        return;
      }
      assert contexts[0..] == contexts;
      for i := 0 to |contexts|
        invariant AllValid(contexts[i..]) && ReposOf(contexts[i..]) <= repos && HeightOf(contexts[i..]) < height
        invariant FirstHit(StatesOf(contexts), key, localOnly) == FirstHit(StatesOf(contexts[i..]), key, localOnly)
      {
        MembersFrom(contexts, i, key, localOnly);
        v := SearchMember(contexts[i], key, localOnly);
        if v.Some? {
          return;
        }
      }
      return None;
    }

    method SearchMember(member: Member, key: Key, localOnly: bool) returns (v: Option<Value>)
      requires Valid() && member.Repos() <= repos && member.Height() < height
      requires member.Nested? ==> member.composition.Valid()
      ensures v == Lookup(StateOf(member), key, localOnly)
      decreases height, 0
    {
      match member {
        case Single(r) => v := Found(r.State(), key, localOnly);
        case Nested(c) => v := c.Search(key, localOnly);
      }
    }
  }

  // ----- resolving dotted names -----

  datatype ResolveError = ContextError | Other(name: string)

  /** `walk` goes from the value of the first name along the rest of the argument. */
  function ResolveIn(r: Repo, first: Key, walk: Value -> Result<Value, ResolveError>): Result<Value, ResolveError> {
    if GetAny(r, first).None? then Err(ContextError) else walk(GetAny(r, first).value)
  }

  /** A composition asks the next context only after a ContextError. */
  function Resolve(c: Context, first: Key, walk: Value -> Result<Value, ResolveError>): Result<Value, ResolveError>
    decreases c
  {
    match c
    case Plain(r) => ResolveIn(r, first, walk)
    case Composed(inner, contexts) =>
      var v := ResolveIn(inner, first, walk);
      if v == Err(ContextError) then ResolveAmong(contexts, first, walk) else v
  }

  function ResolveAmong(
    contexts: seq<Context>, first: Key, walk: Value -> Result<Value, ResolveError>): Result<Value, ResolveError>
    decreases contexts
  {
    if contexts == [] then Err(ContextError)
    else
      var v := Resolve(contexts[0], first, walk);
      if v == Err(ContextError) then ResolveAmong(contexts[1..], first, walk) else v
  }

  /** The first repository, in flat order, that does not end in a ContextError. */
  function FirstResolved(
    repos: seq<Repo>, first: Key, walk: Value -> Result<Value, ResolveError>): Result<Value, ResolveError>
  {
    if repos == [] then Err(ContextError)
    else
      var v := ResolveIn(repos[0], first, walk);
      if v == Err(ContextError) then FirstResolved(repos[1..], first, walk) else v
  }

  lemma {:induction false} FirstResolvedAppend(
    a: seq<Repo>, b: seq<Repo>, first: Key, walk: Value -> Result<Value, ResolveError>)
    ensures FirstResolved(a + b, first, walk)
         == if FirstResolved(a, first, walk) != Err(ContextError) then FirstResolved(a, first, walk)
            else FirstResolved(b, first, walk)
  {
    if a == [] {
      assert a + b == b;
    } else {
      assert (a + b)[1..] == a[1..] + b;
      FirstResolvedAppend(a[1..], b, first, walk);
    }
  }

  /** However compositions are nested, a dotted name is resolved by the flat list of repositories. */
  lemma {:induction false} ResolvesFlat(c: Context, first: Key, walk: Value -> Result<Value, ResolveError>)
    ensures Resolve(c, first, walk) == FirstResolved(Flat(c), first, walk)
    decreases c
  {
    match c {
      case Plain(r) =>
        assert [r][1..] == [];
      case Composed(inner, contexts) =>
        ResolvesAmongFlat(contexts, first, walk);
        assert Flat(c)[1..] == FlatAll(contexts);
    }
  }

  lemma {:induction false} ResolvesAmongFlat(
    contexts: seq<Context>, first: Key, walk: Value -> Result<Value, ResolveError>)
    ensures ResolveAmong(contexts, first, walk) == FirstResolved(FlatAll(contexts), first, walk)
    decreases contexts
  {
    if contexts != [] {
      ResolvesFlat(contexts[0], first, walk);
      ResolvesAmongFlat(contexts[1..], first, walk);
      FirstResolvedAppend(Flat(contexts[0]), FlatAll(contexts[1..]), first, walk);
    }
  }

  /**
   * The first name alone decides which context answers: if the rest fails there, with anything but a ContextError
   * again, no other one is asked.
   */
  lemma {:induction false} ResolveFollowsLookup(c: Context, first: Key, walk: Value -> Result<Value, ResolveError>)
    requires Lookup(c, first, false).Some? ==> walk(Lookup(c, first, false).value) != Err(ContextError)
    ensures Resolve(c, first, walk)
         == if Lookup(c, first, false).None? then Err(ContextError) else walk(Lookup(c, first, false).value)
    decreases c
  {
    if c.Composed? && Found(c.inner, first, false).None? {
      ResolveAmongFollows(c.contexts, first, walk);
    }
  }

  lemma {:induction false} ResolveAmongFollows(
    contexts: seq<Context>, first: Key, walk: Value -> Result<Value, ResolveError>)
    requires var v := FirstHit(contexts, first, false); v.Some? ==> walk(v.value) != Err(ContextError)
    ensures var v := FirstHit(contexts, first, false);
      ResolveAmong(contexts, first, walk) == if v.None? then Err(ContextError) else walk(v.value)
    decreases contexts
  {
    if contexts != [] {
      ResolveFollowsLookup(contexts[0], first, walk);
      if Lookup(contexts[0], first, false).None? {
        ResolveAmongFollows(contexts[1..], first, walk);
      }
    }
  }

  // ----- merging dependency-injection configs -----

  /** EMPTY and None are both falsy. */
  datatype Serializer = Unset | Disabled | Use(name: string)

  datatype FastDependsConfig = FastDependsConfig(
    useFastdepends: bool,
    provider: string,
    serializer: Serializer,
    context: Context,
    callDecorators: seq<string>,
    getDependent: Option<string>)
  {
    /** `self | value`; `marker` names the composition it creates. */
    function Or(value: FastDependsConfig, marker: Value): FastDependsConfig {
      FastDependsConfig(
        value.useFastdepends && useFastdepends,
        value.provider,
        if serializer.Use? then serializer else value.serializer,
        Composed(Blank(marker), [value.context, context]),
        value.callDecorators + callDecorators,
        if getDependent.Some? then getDependent else value.getDependent)
    }
  }

  /** What merging leaves to be seen, except the entry a composition keeps for itself. */
  ghost predicate SeenAlike(a: FastDependsConfig, b: FastDependsConfig) {
    a.useFastdepends == b.useFastdepends && a.provider == b.provider && a.serializer == b.serializer &&
    a.callDecorators == b.callDecorators && a.getDependent == b.getDependent &&
    forall key, localOnly :: key != "context" || localOnly ==>
      Lookup(a.context, key, localOnly) == Lookup(b.context, key, localOnly)
  }

  /** The right operand is asked first, then the left one; a new inner repository answers only `context`. */
  lemma {:induction false} MergedLookup(a: Context, b: Context, self: Value, key: Key, localOnly: bool)
    requires key != "context" || localOnly
    ensures Lookup(Composed(Blank(self), [b, a]), key, localOnly) == FirstFound(Flat(b) + Flat(a), key, localOnly)
  {
    assert FlatAll([b, a]) == Flat(b) + Flat(a) by {
      assert [b, a][1..] == [a] && [a][1..] == [];
      assert FlatAll([a]) == Flat(a) + [];
    }
    HitsFlat([b, a], key, localOnly);
    assert Found(Blank(self), key, localOnly) == None;
  }

  /**
   * Merging is associative as far as it can be seen; only the global entry `context` tells
   * the groupings apart, and exactly when their outer compositions differ.
   */
  lemma {:induction false} OrAssociative(a: FastDependsConfig, b: FastDependsConfig, c: FastDependsConfig,
                                         left: Value, leftInner: Value, right: Value, rightInner: Value)
    ensures SeenAlike(a.Or(b, leftInner).Or(c, left), a.Or(b.Or(c, rightInner), right))
    ensures Lookup(a.Or(b, leftInner).Or(c, left).context, "context", false)
         == Lookup(a.Or(b.Or(c, rightInner), right).context, "context", false)
        <==> left == right
  {
    var l, r := a.Or(b, leftInner).Or(c, left), a.Or(b.Or(c, rightInner), right);
    assert l.callDecorators == r.callDecorators;
    forall key, localOnly | key != "context" || localOnly
      ensures Lookup(l.context, key, localOnly) == Lookup(r.context, key, localOnly)
    {
      MergedLookup(Composed(Blank(leftInner), [b.context, a.context]), c.context, left, key, localOnly);
      MergedLookup(a.context, Composed(Blank(rightInner), [c.context, b.context]), right, key, localOnly);
      MergeRegroups(a.context, b.context, c.context, leftInner, rightInner, key, localOnly);
    }
    assert Found(Blank(left), "context", false) == Some(left);
    assert Found(Blank(right), "context", false) == Some(right);
  }

  lemma {:induction false} MergeRegroups(
    a: Context, b: Context, c: Context, f: Value, g: Value, key: Key, localOnly: bool)
    requires key != "context" || localOnly
    ensures FirstFound(Flat(c) + Flat(Composed(Blank(f), [b, a])), key, localOnly)
         == FirstFound(Flat(Composed(Blank(g), [c, b])) + Flat(a), key, localOnly)
  {
    var ab, bc := Composed(Blank(f), [b, a]), Composed(Blank(g), [c, b]);
    FirstFoundAppend(Flat(c), Flat(ab), key, localOnly);
    FirstFoundAppend(Flat(bc), Flat(a), key, localOnly);
    LooksUpFlat(ab, key, localOnly);
    LooksUpFlat(bc, key, localOnly);
    MergedLookup(a, b, f, key, localOnly);
    MergedLookup(b, c, g, key, localOnly);
    FirstFoundAppend(Flat(b), Flat(a), key, localOnly);
    FirstFoundAppend(Flat(c), Flat(b), key, localOnly);
  }
}
