/** Global values and the scoped values they hide, over whole programs of scope blocks. */
module ContextGlobals {
  import opened Contexts
  import opened Wrappers

  /** A program that neither sets nor resets the global value of a key and never clears. */
  predicate LeavesGlobal(program: seq<Stmt>, key: Key)
    decreases program
  {
    program == [] || (LeavesGlobalOne(program[0], key) && LeavesGlobal(program[1..], key))
  }

  predicate LeavesGlobalOne(s: Stmt, key: Key)
    decreases s
  {
    match s
    case Set(_, _) => true
    case SetGlobal(name, _) => name != key
    case ResetGlobal(name) => name != key
    case Clear(_) => false
    case Block(_, body) => LeavesGlobal(body, key)
  }

  /** The global value of a key, if there is one. */
  function GlobalOf(r: Repo, key: Key): Option<Value> {
    if key in r.globals then r.globals[key] else None
  }

  lemma {:induction false} ExitKeepsGlobals(t: Repo, tokens: Tokens)
    requires Exit(t, tokens).Ok?
    ensures Exit(t, tokens).value.globals == t.globals
    decreases |tokens|
  {
    if tokens != [] {
      ExitKeepsGlobals(t, tokens[1..]);
    }
  }

  lemma {:induction false} GlobalStays(r: Repo, program: seq<Stmt>, key: Key)
    requires LeavesGlobal(program, key) && Run(r, program).Ok?
    ensures GlobalOf(Run(r, program).value, key) == GlobalOf(r, key)
    decreases program
  {
    if program != [] {
      GlobalStaysOne(r, program[0], key);
      GlobalStays(RunOne(r, program[0]).value, program[1..], key);
    }
  }

  lemma {:induction false} GlobalStaysOne(r: Repo, s: Stmt, key: Key)
    requires LeavesGlobalOne(s, key) && RunOne(r, s).Ok?
    ensures GlobalOf(RunOne(r, s).value, key) == GlobalOf(r, key)
    decreases s
  {
    if s.Block? {
      var (entered, tokens) := Enter(r, s.items);
      EnterKeeps(r, s.items);
      GlobalStays(entered, s.body, key);
      ExitKeepsGlobals(Run(entered, s.body).value, tokens);
    }
  }

  /** `get` gives `value` for a key, from the repository and from every composition it is the inner one of. */
  ghost predicate ReadsAs(r: Repo, key: Key, value: Value) {
    Lookup(Plain(r), key, false) == Some(value) &&
    forall contexts :: Lookup(Composed(r, contexts), key, false) == Some(value)
  }

  /**
   * Whatever a program does to scoped values, a global value it leaves alone is read before them; with
   * no global value the scoped one is read, and so it is once the global one is reset.
   */
  lemma {:induction false} GlobalHidesScoped(r: Repo, program: seq<Stmt>, key: Key)
    requires LeavesGlobal(program, key) && Run(r, program).Ok?
    ensures var r' := Run(r, program).value;
      (forall g :: key in r.globals && r.globals[key] == Some(g) ==> ReadsAs(r', key, g)) &&
      (key !in r.globals || r.globals[key].None? ==> ReadsScoped(r', key)) &&
      Run(r', [ResetGlobal(key)]).Ok? &&
      GetLocal(Run(r', [ResetGlobal(key)]).value, key) == GetLocal(r', key) &&
      ReadsScoped(Run(r', [ResetGlobal(key)]).value, key)
  {
    GlobalStays(r, program, key);
    var r' := Run(r, program).value;
    assert [ResetGlobal(key)][1..] == [];
    var reset := r'.(globals := r'.globals - {key});
    assert Run(reset, []) == Ok(reset);
    assert Run(r', [ResetGlobal(key)]) == Ok(reset);
  }

  /** `get` reads the scoped value, and the contexts behind the repository only if there is none. */
  ghost predicate ReadsScoped(r: Repo, key: Key) {
    Lookup(Plain(r), key, false) == GetLocal(r, key) &&
    forall contexts ::
      Lookup(Composed(r, contexts), key, false)
        == if GetLocal(r, key).Some? then GetLocal(r, key) else FirstHit(contexts, key, false)
  }

  /** A global value set before a block hides the block's own value of the key; reset inside it, the block's is read. */
  lemma {:induction false} GlobalHidesBlock(r: Repo, items: Items, key: Key, g: Value)
    requires ItemKey(items, key)
    ensures var entered := Enter(RunOne(r, SetGlobal(key, Some(g))).value, items).0;
      ReadsAs(entered, key, g) &&
      ReadsScoped(RunOne(entered, ResetGlobal(key)).value, key) &&
      GetLocal(RunOne(entered, ResetGlobal(key)).value, key) == LastValue(items, key)
  {
    var before := RunOne(r, SetGlobal(key, Some(g))).value;
    EnterKeeps(before, items);
    EnterSets(before, items, key);
  }

  /** After `clear` only the name of the repository itself is known. */
  lemma {:induction false} ClearForgets(r: Repo, self: Value, key: Key)
    ensures var cleared := RunOne(r, Clear(self)).value;
      GetLocal(cleared, key) == None &&
      Lookup(Plain(cleared), key, false) == if key == "context" then Some(self) else None
  {
  }
}
