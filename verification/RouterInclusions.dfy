/** What an inclusion does to the options of the router and of everything below it. */
module RouterInclusions {
  import opened Wrappers
  import opened BrokerConfigs
  import opened Registrators
  import opened RouterOptions

  /** What a registrator's composition answers for each option. */
  datatype Lookups = Lookups(
    prefix: string,
    middlewares: seq<Name>,
    dependencies: seq<Name>,
    inSchema: bool,
    ackPolicy: Option<Name>,
    parser: Option<Name>,
    decoder: Option<Name>,
    codec: Option<Name>,
    extraContext: map<Name, Name>,
    producer: Name)

  ghost function LookedUp(nodes: set<Registrator>, n: Registrator): Lookups
    requires Valid(nodes) && n in nodes
    reads nodes, Configs(nodes)
  {
    AllGrow(nodes, n);
    var all, c := Configs(nodes), n.config;
    Lookups(
      c.Merged((b: BrokerConfig) => b.prefix, 0, all),
      c.Merged((b: BrokerConfig) => b.middlewares, 0, all),
      c.Merged((b: BrokerConfig) => b.dependencies, 0, all),
      c.InSchema(0, all),
      c.Last((b: BrokerConfig) => b.ackPolicy, |c.configs|, all),
      c.First((b: BrokerConfig) => b.parser, 0, all),
      c.First((b: BrokerConfig) => b.decoder, 0, all),
      c.First((b: BrokerConfig) => b.codec, 0, all),
      c.ExtraContext(|c.configs|, all),
      c.Root((b: BrokerConfig) => b.producer, all))
  }

  /** The same options over a walk whose root sets `producer`. */
  ghost function Flat(walk: seq<BrokerConfig>, producer: Name): Lookups {
    Lookups(
      FlatMerged((b: BrokerConfig) => b.prefix, walk),
      FlatMerged((b: BrokerConfig) => b.middlewares, walk),
      FlatMerged((b: BrokerConfig) => b.dependencies, walk),
      FlatInSchema(walk),
      FlatLast((b: BrokerConfig) => b.ackPolicy, walk),
      FlatFirst((b: BrokerConfig) => b.parser, walk),
      FlatFirst((b: BrokerConfig) => b.decoder, walk),
      FlatFirst((b: BrokerConfig) => b.codec, walk),
      FlatExtraContext(walk),
      producer)
  }

  function OrElse<T>(a: Option<T>, b: Option<T>): Option<T> {
    if a.Some? then a else b
  }

  /** The options `outer` gives, and then those of configs further in, which answer `inner`. */
  ghost predicate Joined(now: Lookups, outer: Lookups, inner: Lookups) {
    now.prefix == outer.prefix + inner.prefix &&
    now.middlewares == outer.middlewares + inner.middlewares &&
    now.dependencies == outer.dependencies + inner.dependencies &&
    now.inSchema == (outer.inSchema && inner.inSchema) &&
    now.ackPolicy == OrElse(inner.ackPolicy, outer.ackPolicy) &&
    now.parser == OrElse(outer.parser, inner.parser) &&
    now.decoder == OrElse(outer.decoder, inner.decoder) &&
    now.codec == OrElse(outer.codec, inner.codec) &&
    now.extraContext == outer.extraContext + inner.extraContext &&
    now.producer == outer.producer
  }

  // ----- walks laid end to end -----

  lemma {:induction false} FlatMergedAppend<T>(get: BrokerConfig -> seq<T>, a: seq<BrokerConfig>, b: seq<BrokerConfig>)
    ensures FlatMerged(get, a + b) == FlatMerged(get, a) + FlatMerged(get, b)
    decreases |b|
  {
    if b == [] {
      assert a + b == a;
    } else {
      assert (a + b)[..|a + b| - 1] == a + b[..|b| - 1];
      FlatMergedAppend(get, a, b[..|b| - 1]);
    }
  }

  lemma {:induction false} OverlayAssoc(a: map<Name, Name>, b: map<Name, Name>, c: map<Name, Name>)
    ensures a + b + c == a + (b + c)
  {
  }

  lemma {:induction false} FlatExtraContextAppend(a: seq<BrokerConfig>, b: seq<BrokerConfig>)
    ensures FlatExtraContext(a + b) == FlatExtraContext(a) + FlatExtraContext(b)
    decreases |b|
  {
    if b == [] {
      assert a + b == a;
    } else {
      assert (a + b)[..|a + b| - 1] == a + b[..|b| - 1];
      FlatExtraContextAppend(a, b[..|b| - 1]);
      OverlayAssoc(FlatExtraContext(a), FlatExtraContext(b[..|b| - 1]), b[|b| - 1].extraContext);
    }
  }

  lemma {:induction false} FlatLastJoins<T>(get: BrokerConfig -> Option<T>, a: seq<BrokerConfig>, b: seq<BrokerConfig>)
    ensures FlatLast(get, a + b) == OrElse(FlatLast(get, b), FlatLast(get, a))
    decreases |b|
  {
    if b == [] {
      assert a + b == a;
    } else {
      assert (a + b)[..|a + b| - 1] == a + b[..|b| - 1];
      FlatLastJoins(get, a, b[..|b| - 1]);
    }
  }

  lemma {:induction false} FlatFirstJoins<T>(get: BrokerConfig -> Option<T>, a: seq<BrokerConfig>, b: seq<BrokerConfig>)
    ensures FlatFirst(get, a + b) == OrElse(FlatFirst(get, a), FlatFirst(get, b))
    decreases |a|
  {
    if a == [] {
      assert a + b == b;
    } else {
      assert (a + b)[1..] == a[1..] + b;
      FlatFirstJoins(get, a[1..], b);
    }
  }

  lemma {:induction false} FlatJoins(a: seq<BrokerConfig>, b: seq<BrokerConfig>, producer: Name, other: Name)
    ensures Joined(Flat(a + b, producer), Flat(a, producer), Flat(b, other))
  {
    FlatMergedAppend((c: BrokerConfig) => c.prefix, a, b);
    FlatMergedAppend((c: BrokerConfig) => c.middlewares, a, b);
    FlatMergedAppend((c: BrokerConfig) => c.dependencies, a, b);
    FlatInSchemaAppend(a, b);
    FlatLastJoins((c: BrokerConfig) => c.ackPolicy, a, b);
    FlatFirstJoins((c: BrokerConfig) => c.parser, a, b);
    FlatFirstJoins((c: BrokerConfig) => c.decoder, a, b);
    FlatFirstJoins((c: BrokerConfig) => c.codec, a, b);
    FlatExtraContextAppend(a, b);
  }

  /** The answers, read off the walk of a registrator in a state of the forest. */
  ghost function AnswersIn(st: ForestState, n: Registrator): Lookups
    requires Forest(st) && n in st
  {
    KnownPath(st, n);
    Flat(WalkIn(st, n), st[n].path[0].own.producer)
  }

  lemma {:induction false} LookedUpInState(nodes: set<Registrator>, n: Registrator)
    requires Valid(nodes) && n in nodes
    ensures LookedUp(nodes, n) == AnswersIn(State(nodes), n)
  {
    OptionsFollowWalk(nodes, n);
    assert State(nodes)[n].path == n.path;
  }

  lemma {:induction false} AllLookedUp(nodes: set<Registrator>)
    requires Valid(nodes)
    ensures forall n :: n in nodes ==> LookedUp(nodes, n) == AnswersIn(State(nodes), n)
  {
    forall n | n in nodes ensures LookedUp(nodes, n) == AnswersIn(State(nodes), n) {
      LookedUpInState(nodes, n);
    }
  }

  lemma {:induction false} FlatOne(own: BrokerConfig, producer: Name)
    ensures Flat([own], producer)
         == Lookups(own.prefix, own.middlewares, own.dependencies, own.includeInSchema != Some(false), own.ackPolicy,
                    own.parser, own.decoder, own.codec, own.extraContext, producer)
  {
    assert [own][..0] == [] && [own][1..] == [];
    FlatInSchemaOne(own);
    assert FlatMerged((c: BrokerConfig) => c.prefix, [own][..0]) == [];
    assert FlatMerged((c: BrokerConfig) => c.middlewares, [own][..0]) == [];
    assert FlatMerged((c: BrokerConfig) => c.dependencies, [own][..0]) == [];
    assert FlatExtraContext([own][..0]) == map[];
    assert FlatLast((c: BrokerConfig) => c.ackPolicy, [own][..0]).None?;
    assert FlatFirst((c: BrokerConfig) => c.parser, [own][1..]).None?;
    assert FlatFirst((c: BrokerConfig) => c.decoder, [own][1..]).None?;
    assert FlatFirst((c: BrokerConfig) => c.codec, [own][1..]).None?;
  }

  /** A broker, and a router that is not included, answers what it was given itself. */
  lemma {:induction false} RootAnswers(nodes: set<Registrator>, n: Registrator)
    requires Valid(nodes) && n in nodes && n.parent == null
    ensures LookedUp(nodes, n)
         == Lookups(n.own.prefix, n.own.middlewares, n.own.dependencies, n.own.includeInSchema != Some(false),
                    n.own.ackPolicy, n.own.parser, n.own.decoder, n.own.codec, n.own.extraContext, n.own.producer)
  {
    LookedUpInState(nodes, n);
    AllGrow(nodes, n);
    assert State(nodes)[n].path == n.path;
    FlatOne(n.own, n.own.producer);
  }

  // ----- one inclusion, by its keyword arguments -----

  /** What a router answers below `above`, included with these arguments. */
  ghost predicate AnswersBelow(
    now: Lookups, above: Lookups, prefix: string, dependencies: seq<Name>, middlewares: seq<Name>,
    includeInSchema: Option<bool>, own: BrokerConfig) {
    now.prefix == above.prefix + prefix + own.prefix &&
    now.middlewares == above.middlewares + middlewares + own.middlewares &&
    now.dependencies == above.dependencies + dependencies + own.dependencies &&
    now.inSchema == (above.inSchema && includeInSchema != Some(false) && own.includeInSchema != Some(false)) &&
    now.ackPolicy == OrElse(own.ackPolicy, above.ackPolicy) &&
    now.parser == OrElse(above.parser, own.parser) &&
    now.decoder == OrElse(above.decoder, own.decoder) &&
    now.codec == OrElse(above.codec, own.codec) &&
    now.extraContext == above.extraContext + own.extraContext &&
    now.producer == above.producer
  }

  lemma {:induction false} FlatInSchemaOne(c: BrokerConfig)
    ensures FlatInSchema([c]) == (c.includeInSchema != Some(false))
  {
    assert [c][0] == c;
  }

  lemma {:induction false} FlatLastTwo<T>(get: BrokerConfig -> Option<T>, a: BrokerConfig, b: BrokerConfig)
    ensures FlatLast(get, [a, b]) == OrElse(get(b), get(a))
  {
    assert [a, b][..1] == [a] && [a][..0] == [];
    assert FlatLast(get, [a][..0]).None? && FlatLast(get, [a]) == get(a);
  }

  lemma {:induction false} FlatFirstTwo<T>(get: BrokerConfig -> Option<T>, a: BrokerConfig, b: BrokerConfig)
    ensures FlatFirst(get, [a, b]) == OrElse(get(a), get(b))
  {
    assert [a, b][1..] == [b] && [b][1..] == [];
    assert FlatFirst(get, [b][1..]).None? && FlatFirst(get, [b]) == get(b);
  }

  lemma {:induction false} FlatOfTwo(options: BrokerConfig, own: BrokerConfig)
    requires options.OnlyIncludeOptions()
    ensures var f := Flat([options, own], "");
      f.prefix == options.prefix + own.prefix && f.middlewares == options.middlewares + own.middlewares &&
      f.dependencies == options.dependencies + own.dependencies &&
      f.inSchema == (options.includeInSchema != Some(false) && own.includeInSchema != Some(false)) &&
      f.ackPolicy == own.ackPolicy && f.parser == own.parser && f.decoder == own.decoder && f.codec == own.codec &&
      f.extraContext == own.extraContext
  {
    assert [] + [options, own] == [options, own];
    assert [options] + [own] == [options, own];
    FlatMergedTwo((c: BrokerConfig) => c.prefix, [], options, own);
    FlatMergedTwo((c: BrokerConfig) => c.middlewares, [], options, own);
    FlatMergedTwo((c: BrokerConfig) => c.dependencies, [], options, own);
    FlatExtraContextTwo([], options, own);
    FlatInSchemaOne(options);
    FlatInSchemaOne(own);
    FlatInSchemaAppend([options], [own]);
    FlatLastTwo((c: BrokerConfig) => c.ackPolicy, options, own);
    FlatFirstTwo((c: BrokerConfig) => c.parser, options, own);
    FlatFirstTwo((c: BrokerConfig) => c.decoder, options, own);
    FlatFirstTwo((c: BrokerConfig) => c.codec, options, own);
  }

  lemma {:induction false} FlatBelow(
    above: seq<BrokerConfig>, options: BrokerConfig, own: BrokerConfig, producer: Name)
    requires options.OnlyIncludeOptions()
    ensures AnswersBelow(Flat(above + [options, own], producer), Flat(above, producer), options.prefix,
                         options.dependencies, options.middlewares, options.includeInSchema, own)
  {
    FlatJoins(above, [options, own], producer, "");
    FlatOfTwo(options, own);
    Assoc(Flat(above, producer).prefix, options.prefix, own.prefix);
    Assoc(Flat(above, producer).middlewares, options.middlewares, own.middlewares);
    Assoc(Flat(above, producer).dependencies, options.dependencies, own.dependencies);
  }

  lemma {:induction false} Assoc<T>(a: seq<T>, b: seq<T>, c: seq<T>)
    ensures a + (b + c) == a + b + c
  {
  }

  /** The first registrator on a path stays the first on the path of everything below. */
  lemma {:induction false} SameRoot(st: ForestState, router: Registrator, m: Registrator)
    requires Forest(st) && m in st && router in st[m].path
    ensures router in st && st[m].path != [] && st[router].path != [] && st[m].path[0] == st[router].path[0]
  {
    PathSplits(st, m, router);
  }

  /** What is below a router adds the same to its answers, wherever the router stands. */
  lemma {:induction false} BelowJoins(st: ForestState, router: Registrator, m: Registrator)
    requires Forest(st) && m in st && router in st[m].path
    ensures router in st && Joined(AnswersIn(st, m), AnswersIn(st, router), Flat(Below(st, router, m), ""))
  {
    SameRoot(st, router, m);
    WalkSplits(st, router, m);
    FlatJoins(WalkIn(st, router), Below(st, router, m), st[m].path[0].own.producer, "");
  }

  lemma {:induction false} RouterAnswers(
    st: ForestState, self: Registrator, router: Registrator, options: BrokerConfig)
    requires Moves(st, self, router) && options.OnlyIncludeOptions()
    ensures var st' := Include(st, self, router, options);
      Forest(st') &&
      AnswersBelow(AnswersIn(st', router), AnswersIn(st, self), options.prefix, options.dependencies,
                   options.middlewares, options.includeInSchema, router.own)
  {
    var st' := Include(st, self, router, options);
    StillForest(st, self, router, options);
    KnownPath(st, self);
    KnownPath(st, router);
    assert PathOk(st, router);
    LastOf(st[router].path);
    MovedPaths(st, self, router, options, router);
    OtherWalk(st, self, router, options, self);
    RouterRelocated(st, self, router);
    WalkStep(st', router);
    FlatBelow(WalkIn(st, self), options, router.own, st[self].path[0].own.producer);
  }

  lemma {:induction false} AnswersElsewhere(
    st: ForestState, self: Registrator, router: Registrator, options: BrokerConfig, m: Registrator)
    requires Moves(st, self, router) && options.OnlyIncludeOptions() && m in st && router !in st[m].path
    ensures Forest(Include(st, self, router, options))
    ensures AnswersIn(Include(st, self, router, options), m) == AnswersIn(st, m)
  {
    OtherWalk(st, self, router, options, m);
  }

  lemma {:induction false} AnswersFurtherBelow(
    st: ForestState, self: Registrator, router: Registrator, options: BrokerConfig, m: Registrator)
    requires Moves(st, self, router) && options.OnlyIncludeOptions() && m in st && router in st[m].path
    ensures var st', below := Include(st, self, router, options), Flat(Below(st, router, m), "");
      Forest(st') &&
      Joined(AnswersIn(st, m), AnswersIn(st, router), below) && Joined(AnswersIn(st', m), AnswersIn(st', router), below)
  {
    MovedBelow(st, self, router, options, m);
    BelowJoins(st, router, m);
    BelowJoins(Include(st, self, router, options), router, m);
  }

  /**
   * A call of `include_router`, and what every composition then answers. Attaching a router puts
   * the receiver's options and the call's arguments in front of its own, for it and for
   * everything below it, and leaves all other answers alone.
   */
  method IncludeAndAnswer(
    receiver: Registrator, router: Registrator, prefix: string, dependencies: seq<Name>, middlewares: seq<Name>,
    includeInSchema: Option<bool>, ghost nodes: set<Registrator>)
    requires receiver in nodes && router in nodes && Valid(nodes) && router !in receiver.path
    modifies nodes, Configs(nodes)
    ensures Valid(nodes)
    ensures old(router.parent) == receiver ==>
              forall m :: m in nodes ==> LookedUp(nodes, m) == old(LookedUp(nodes, m))
    ensures old(router.parent) != receiver ==>
              AnswersBelow(LookedUp(nodes, router), old(LookedUp(nodes, receiver)),
                           prefix, dependencies, middlewares, includeInSchema, router.own)
    ensures old(router.parent) != receiver ==>
              forall m :: m in nodes && router in old(m.path) ==>
                var below := old(Flat(Below(State(nodes), router, m), ""));
                Joined(old(LookedUp(nodes, m)), old(LookedUp(nodes, router)), below) &&
                Joined(LookedUp(nodes, m), LookedUp(nodes, router), below)
    ensures forall m :: m in nodes && router !in old(m.path) ==> LookedUp(nodes, m) == old(LookedUp(nodes, m))
  {
    ghost var before := State(nodes);
    AllLookedUp(nodes);
    receiver.IncludeRouter(router, prefix, dependencies, middlewares, includeInSchema, nodes);
    AllLookedUp(nodes);
    if before[router].parent != receiver {
      ghost var options := IncludeOptions(prefix, dependencies, middlewares, includeInSchema);
      RouterAnswers(before, receiver, router, options);
      forall m | m in nodes && router in before[m].path
        ensures var below := Flat(Below(before, router, m), "");
          Joined(AnswersIn(before, m), AnswersIn(before, router), below) &&
          Joined(AnswersIn(State(nodes), m), AnswersIn(State(nodes), router), below)
      {
        AnswersFurtherBelow(before, receiver, router, options, m);
      }
      forall m | m in nodes && router !in before[m].path
        ensures AnswersIn(State(nodes), m) == AnswersIn(before, m)
      {
        AnswersElsewhere(before, receiver, router, options, m);
      }
    }
  }
}
