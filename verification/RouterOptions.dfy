/** Options looked up through live compositions, compared with a walk from the root. */
module RouterOptions {
  import opened Wrappers
  import opened BrokerConfigs
  import opened Registrators

  /** The configs below a node, outermost first: what each inclusion was given, then its router's own. */
  ghost function WalkBelow(st: ForestState, p: seq<Registrator>): seq<BrokerConfig>
    requires forall i :: 0 <= i < |p| ==> p[i] in st
  {
    if p == [] then []
    else
      var n := p[|p| - 1];
      WalkBelow(st, p[..|p| - 1]) + [st[n].options, n.own]
  }

  /** The configs from the root to the end of the path. */
  ghost function Walk(st: ForestState, p: seq<Registrator>): seq<BrokerConfig>
    requires p != [] && forall i :: 0 <= i < |p| ==> p[i] in st
  {
    [p[0].own] + WalkBelow(st, p[1..])
  }

  lemma {:induction false} WalkBelowAppend(st: ForestState, p: seq<Registrator>, q: seq<Registrator>)
    requires forall i :: 0 <= i < |p| ==> p[i] in st
    requires forall i :: 0 <= i < |q| ==> q[i] in st
    ensures WalkBelow(st, p + q) == WalkBelow(st, p) + WalkBelow(st, q)
    decreases |q|
  {
    if q == [] {
      assert p + q == p;
    } else {
      var r := q[..|q| - 1];
      assert (p + q)[..|p + q| - 1] == p + r;
      WalkBelowAppend(st, p, r);
    }
  }

  lemma {:induction false} WalkAppend(st: ForestState, p: seq<Registrator>, q: seq<Registrator>)
    requires p != []
    requires forall i :: 0 <= i < |p| ==> p[i] in st
    requires forall i :: 0 <= i < |q| ==> q[i] in st
    ensures Walk(st, p + q) == Walk(st, p) + WalkBelow(st, q)
  {
    assert (p + q)[1..] == p[1..] + q;
    WalkBelowAppend(st, p[1..], q);
  }

  /** One step down the walk, and the configs the composition holds there. */
  lemma {:induction false} WalkStep(st: ForestState, n: Registrator)
    requires Forest(st) && n in st
    ensures st[n].path != [] && forall i :: 0 <= i < |st[n].path| ==> st[n].path[i] in st
    ensures st[n].parent == null ==>
              st[n].path == [n] && Walk(st, st[n].path) == [n.own] && st[n].configs == [Plain(n.own)]
    ensures st[n].parent != null ==>
              st[n].parent in st && |st[st[n].parent].path| == |st[n].path| - 1 > 0 &&
              (forall i :: 0 <= i < |st[st[n].parent].path| ==> st[st[n].parent].path[i] in st) &&
              Walk(st, st[n].path) == Walk(st, st[st[n].parent].path) + [st[n].options, n.own] &&
              st[n].options.OnlyIncludeOptions() &&
              st[n].configs
                == [Nested(st[n].parent.config)] + (if st[n].options.Truthy() then [Plain(st[n].options)] else [])
                   + [Plain(n.own)] &&
              st[n].path[0] == st[st[n].parent].path[0]
  {
    assert PathOk(st, n) && ConfigsOk(st, n);
    if st[n].parent != null {
      assert PathOk(st, st[n].parent);
      WalkAppend(st, st[st[n].parent].path, [n]);
      assert WalkBelow(st, [n]) == [st[n].options, n.own];
    }
  }

  lemma {:induction false} Nests(nodes: set<Registrator>)
    requires Valid(nodes)
    ensures WellNested(Configs(nodes))
  {
    var st := State(nodes);
    forall n | n in nodes
      ensures n.config.configs != [] &&
              forall i :: 0 <= i < |n.config.configs| && n.config.configs[i].Nested? ==>
                n.config.configs[i].composition in Configs(nodes) &&
                n.config.configs[i].composition.rank < n.config.rank
    {
      WalkStep(st, n);
      assert st[n] == n.Look();
      if n.parent != null {
        assert n.parent in nodes && st[n.parent] == n.parent.Look();
      }
    }
  }

  /** The root-to-leaf walk of a registrator in the heap. */
  ghost function WalkTo(nodes: set<Registrator>, n: Registrator): seq<BrokerConfig>
    requires Valid(nodes) && n in nodes
    reads nodes, Configs(nodes)
  {
    WalkStep(State(nodes), n);
    Walk(State(nodes), n.path)
  }

  /** How a registrator's composition and walk grow out of its parent's. */
  ghost predicate Grows(nodes: set<Registrator>, n: Registrator)
    requires Valid(nodes) && n in nodes
    reads nodes, Configs(nodes)
  {
    if n.parent == null then
      WalkTo(nodes, n) == [n.own] && n.config.configs == [Plain(n.own)] && n.path == [n]
    else
      n.parent in nodes && 0 < |n.parent.path| < |n.path| && n.path[0] == n.parent.path[0] &&
      n.options.OnlyIncludeOptions() &&
      WalkTo(nodes, n) == WalkTo(nodes, n.parent) + [n.options, n.own] &&
      n.config.configs ==
        [Nested(n.parent.config)] + (if n.options.Truthy() then [Plain(n.options)] else []) + [Plain(n.own)]
  }

  lemma {:induction false} AllGrow(nodes: set<Registrator>, n: Registrator)
    requires Valid(nodes) && n in nodes
    ensures n.path != [] && Grows(nodes, n) && WellNested(Configs(nodes)) && n.config in Configs(nodes)
  {
    var st := State(nodes);
    WalkStep(st, n);
    Nests(nodes);
    assert st[n] == n.Look();
    if n.parent != null {
      assert st[n.parent] == n.parent.Look();
    }
  }

  /** What the composition of an included router holds. */
  ghost predicate Included(
    c: ConfigComposition, above: Layer, options: BrokerConfig, own: BrokerConfig, all: set<ConfigComposition>)
    reads all
  {
    c in all && WellNested(all) && above.Nested? && above.composition in all &&
    c.configs == [above] + (if options.Truthy() then [Plain(options)] else []) + [Plain(own)]
  }

  lemma {:induction false} MergedUnrolls<T>(
    c: ConfigComposition, get: BrokerConfig -> seq<T>, above: Layer, options: BrokerConfig, own: BrokerConfig,
    all: set<ConfigComposition>)
    requires Included(c, above, options, own, all)
    requires !options.Truthy() ==> get(options) == []
    ensures c.Merged(get, 0, all) == above.composition.Merged(get, 0, all) + get(options) + get(own)
  {
    var n := |c.configs|;
    assert c.Merged(get, n, all) == [];
    assert c.Merged(get, n - 1, all) == get(own);
    assert c.Merged(get, 1, all) == get(options) + get(own);
  }

  lemma {:induction false} FlatMergedTwo<T>(
    get: BrokerConfig -> seq<T>, walk: seq<BrokerConfig>, a: BrokerConfig, b: BrokerConfig)
    ensures FlatMerged(get, walk + [a, b]) == FlatMerged(get, walk) + get(a) + get(b)
  {
    assert (walk + [a, b])[..|walk| + 1] == walk + [a];
    assert (walk + [a])[..|walk|] == walk;
  }

  /** Prefix, middlewares and dependencies are concatenated from the root down. */
  lemma {:induction false} MergedFollowsWalk<T>(get: BrokerConfig -> seq<T>, nodes: set<Registrator>, n: Registrator)
    requires Valid(nodes) && n in nodes
    requires forall c: BrokerConfig :: !c.Truthy() ==> get(c) == []
    ensures WellNested(Configs(nodes)) && n.config in Configs(nodes)
    ensures n.config.Merged(get, 0, Configs(nodes)) == FlatMerged(get, WalkTo(nodes, n))
    decreases |n.path|
  {
    AllGrow(nodes, n);
    if n.parent == null {
      assert n.config.Merged(get, 1, Configs(nodes)) == [];
      assert FlatMerged(get, [n.own][..0]) == [];
    } else {
      MergedFollowsWalk(get, nodes, n.parent);
      MergedUnrolls(n.config, get, Nested(n.parent.config), n.options, n.own, Configs(nodes));
      FlatMergedTwo(get, WalkTo(nodes, n.parent), n.options, n.own);
    }
  }

  /** Parser, decoder and codec: the outermost one that is set. */
  lemma {:induction false} FirstFollowsWalk<T>(get: BrokerConfig -> Option<T>, nodes: set<Registrator>, n: Registrator)
    requires Valid(nodes) && n in nodes
    requires forall c: BrokerConfig :: c.OnlyIncludeOptions() ==> get(c).None?
    ensures WellNested(Configs(nodes)) && n.config in Configs(nodes)
    ensures n.config.First(get, 0, Configs(nodes)) == FlatFirst(get, WalkTo(nodes, n))
    decreases |n.path|
  {
    AllGrow(nodes, n);
    var walk, all := WalkTo(nodes, n), Configs(nodes);
    var last := |n.config.configs| - 1;
    assert n.config.First(get, last + 1, all) == None;
    assert n.config.First(get, last, all) == get(n.own);
    if n.parent == null {
      assert FlatFirst(get, walk[1..]) == None;
    } else {
      FirstFollowsWalk(get, nodes, n.parent);
      var above := WalkTo(nodes, n.parent);
      assert walk == above + [n.options] + [n.own];
      FlatFirstAppend(get, above, n.options);
      FlatFirstAppend(get, above + [n.options], n.own);
      assert n.config.First(get, 1, all) == get(n.own);
    }
  }

  lemma {:induction false} LastUnrolls<T>(
    c: ConfigComposition, get: BrokerConfig -> Option<T>, above: Layer, options: BrokerConfig, own: BrokerConfig,
    all: set<ConfigComposition>)
    requires Included(c, above, options, own, all)
    requires get(options).None?
    ensures c.Last(get, |c.configs|, all)
         == if get(own).Some? then get(own) else above.composition.Last(get, |above.composition.configs|, all)
  {
    var inherited := above.composition.Last(get, |above.composition.configs|, all);
    assert c.Last(get, 0, all) == None;
    assert c.Last(get, 1, all) == inherited;
    assert c.Last(get, |c.configs| - 1, all) == inherited;
  }

  /** The acknowledgement policy: the one set nearest to the router. */
  lemma {:induction false} LastFollowsWalk<T>(get: BrokerConfig -> Option<T>, nodes: set<Registrator>, n: Registrator)
    requires Valid(nodes) && n in nodes
    requires forall c: BrokerConfig :: c.OnlyIncludeOptions() ==> get(c).None?
    ensures WellNested(Configs(nodes)) && n.config in Configs(nodes)
    ensures n.config.Last(get, |n.config.configs|, Configs(nodes)) == FlatLast(get, WalkTo(nodes, n))
    decreases |n.path|
  {
    AllGrow(nodes, n);
    if n.parent == null {
      assert n.config.Last(get, 0, Configs(nodes)) == None;
      assert FlatLast(get, [n.own][..0]) == None;
    } else {
      LastFollowsWalk(get, nodes, n.parent);
      LastUnrolls(n.config, get, Nested(n.parent.config), n.options, n.own, Configs(nodes));
      var above := WalkTo(nodes, n.parent);
      assert (above + [n.options, n.own])[..|above| + 1] == above + [n.options];
      assert (above + [n.options])[..|above|] == above;
    }
  }

  lemma {:induction false} InSchemaUnrolls(
    c: ConfigComposition, above: Layer, options: BrokerConfig, own: BrokerConfig, all: set<ConfigComposition>)
    requires Included(c, above, options, own, all)
    ensures c.InSchema(0, all) == (above.composition.InSchema(0, all) && FlatInSchema([options, own]))
  {
    var n := |c.configs|;
    assert c.InSchema(n, all);
    assert c.InSchema(n - 1, all) == (own.includeInSchema != Some(false));
    assert c.InSchema(1, all) == (options.includeInSchema != Some(false) && own.includeInSchema != Some(false));
    assert [options, own][0] == options && [options, own][1] == own;
  }

  lemma {:induction false} FlatInSchemaAppend(walk: seq<BrokerConfig>, more: seq<BrokerConfig>)
    ensures FlatInSchema(walk + more) == (FlatInSchema(walk) && FlatInSchema(more))
  {
    assert forall i :: 0 <= i < |walk| ==> (walk + more)[i] == walk[i];
    assert forall i :: 0 <= i < |more| ==> (walk + more)[|walk| + i] == more[i];
  }

  /** `include_in_schema`: true unless some config on the walk says False. */
  lemma {:induction false} InSchemaFollowsWalk(nodes: set<Registrator>, n: Registrator)
    requires Valid(nodes) && n in nodes
    ensures WellNested(Configs(nodes)) && n.config in Configs(nodes)
    ensures n.config.InSchema(0, Configs(nodes)) == FlatInSchema(WalkTo(nodes, n))
    decreases |n.path|
  {
    AllGrow(nodes, n);
    if n.parent == null {
      assert n.config.InSchema(1, Configs(nodes));
      assert [n.own][0] == n.own;
    } else {
      InSchemaFollowsWalk(nodes, n.parent);
      InSchemaUnrolls(n.config, Nested(n.parent.config), n.options, n.own, Configs(nodes));
      FlatInSchemaAppend(WalkTo(nodes, n.parent), [n.options, n.own]);
    }
  }

  lemma {:induction false} ExtraContextUnrolls(
    c: ConfigComposition, above: Layer, options: BrokerConfig, own: BrokerConfig, all: set<ConfigComposition>)
    requires Included(c, above, options, own, all) && options.extraContext == map[]
    ensures c.ExtraContext(|c.configs|, all)
         == above.composition.ExtraContext(|above.composition.configs|, all) + own.extraContext
  {
    var inherited := above.composition.ExtraContext(|above.composition.configs|, all);
    assert c.ExtraContext(0, all) == map[];
    assert c.ExtraContext(1, all) == inherited;
    assert c.ExtraContext(|c.configs| - 1, all) == inherited;
  }

  lemma {:induction false} FlatExtraContextTwo(walk: seq<BrokerConfig>, a: BrokerConfig, b: BrokerConfig)
    requires a.extraContext == map[]
    ensures FlatExtraContext(walk + [a, b]) == FlatExtraContext(walk) + b.extraContext
  {
    assert (walk + [a, b])[..|walk| + 1] == walk + [a];
    assert (walk + [a])[..|walk|] == walk;
    assert FlatExtraContext(walk + [a]) == FlatExtraContext(walk);
  }

  /** `extra_context`: outer entries first, inner ones overwriting. */
  lemma {:induction false} ExtraContextFollowsWalk(nodes: set<Registrator>, n: Registrator)
    requires Valid(nodes) && n in nodes
    ensures WellNested(Configs(nodes)) && n.config in Configs(nodes)
    ensures n.config.ExtraContext(|n.config.configs|, Configs(nodes)) == FlatExtraContext(WalkTo(nodes, n))
    decreases |n.path|
  {
    AllGrow(nodes, n);
    if n.parent == null {
      assert n.config.ExtraContext(0, Configs(nodes)) == map[];
      assert FlatExtraContext([n.own][..0]) == map[];
    } else {
      ExtraContextFollowsWalk(nodes, n.parent);
      ExtraContextUnrolls(n.config, Nested(n.parent.config), n.options, n.own, Configs(nodes));
      FlatExtraContextTwo(WalkTo(nodes, n.parent), n.options, n.own);
    }
  }

  /** Producer and the other broker options: the root's own. */
  lemma {:induction false} RootFollowsWalk<T>(get: BrokerConfig -> T, nodes: set<Registrator>, n: Registrator)
    requires Valid(nodes) && n in nodes
    ensures WellNested(Configs(nodes)) && n.config in Configs(nodes) && n.path != []
    ensures n.config.Root(get, Configs(nodes)) == get(n.path[0].own)
    decreases |n.path|
  {
    AllGrow(nodes, n);
    if n.parent != null {
      RootFollowsWalk(get, nodes, n.parent);
    }
  }

  /** All the looked-up options of a registrator, read off the walk from its root. */
  lemma {:induction false} OptionsFollowWalk(nodes: set<Registrator>, n: Registrator)
    requires Valid(nodes) && n in nodes
    ensures var all, walk, c := Configs(nodes), WalkTo(nodes, n), n.config;
            WellNested(all) && c in all && n.path != [] &&
            c.Merged((b: BrokerConfig) => b.prefix, 0, all) == FlatMerged((b: BrokerConfig) => b.prefix, walk) &&
            c.Merged((b: BrokerConfig) => b.middlewares, 0, all)
              == FlatMerged((b: BrokerConfig) => b.middlewares, walk) &&
            c.Merged((b: BrokerConfig) => b.dependencies, 0, all)
              == FlatMerged((b: BrokerConfig) => b.dependencies, walk) &&
            c.InSchema(0, all) == FlatInSchema(walk) &&
            c.Last((b: BrokerConfig) => b.ackPolicy, |c.configs|, all)
              == FlatLast((b: BrokerConfig) => b.ackPolicy, walk) &&
            c.First((b: BrokerConfig) => b.parser, 0, all) == FlatFirst((b: BrokerConfig) => b.parser, walk) &&
            c.First((b: BrokerConfig) => b.decoder, 0, all) == FlatFirst((b: BrokerConfig) => b.decoder, walk) &&
            c.First((b: BrokerConfig) => b.codec, 0, all) == FlatFirst((b: BrokerConfig) => b.codec, walk) &&
            c.ExtraContext(|c.configs|, all) == FlatExtraContext(walk) &&
            c.Root((b: BrokerConfig) => b.producer, all) == n.path[0].own.producer
  {
    MergedFollowsWalk((b: BrokerConfig) => b.prefix, nodes, n);
    MergedFollowsWalk((b: BrokerConfig) => b.middlewares, nodes, n);
    MergedFollowsWalk((b: BrokerConfig) => b.dependencies, nodes, n);
    InSchemaFollowsWalk(nodes, n);
    LastFollowsWalk((b: BrokerConfig) => b.ackPolicy, nodes, n);
    FirstFollowsWalk((b: BrokerConfig) => b.parser, nodes, n);
    FirstFollowsWalk((b: BrokerConfig) => b.decoder, nodes, n);
    FirstFollowsWalk((b: BrokerConfig) => b.codec, nodes, n);
    ExtraContextFollowsWalk(nodes, n);
    RootFollowsWalk((b: BrokerConfig) => b.producer, nodes, n);
  }

  // ----- what moving a router does to the walks -----

  lemma {:induction false} KnownPath(st: ForestState, n: Registrator)
    requires Forest(st) && n in st
    ensures st[n].path != [] && forall i :: 0 <= i < |st[n].path| ==> st[n].path[i] in st
  {
    assert PathOk(st, n);
  }

  lemma {:induction false} PathSplits(st: ForestState, n: Registrator, r: Registrator)
    requires Forest(st) && n in st && r in st[n].path
    ensures r in st && 0 < |st[r].path| <= |st[n].path|
    ensures st[n].path == st[r].path + st[n].path[|st[r].path|..] && r !in st[n].path[|st[r].path|..]
    ensures forall i :: 0 <= i < |st[r].path| ==> st[r].path[i] in st
    ensures forall i :: 0 <= i < |st[n].path[|st[r].path|..]| ==> st[n].path[|st[r].path|..][i] in st
  {
    assert PathOk(st, n);
    DepthInPath(st, n, r);
    KnownPath(st, r);
    var p, k := st[n].path, |st[r].path|;
    forall i | k <= i < |p| ensures p[i] != r {
      assert |st[p[i]].path| == i + 1;
    }
  }

  /** The walk of a registrator in a state of the forest. */
  ghost function WalkIn(st: ForestState, m: Registrator): seq<BrokerConfig>
    requires Forest(st) && m in st
  {
    KnownPath(st, m);
    Walk(st, st[m].path)
  }

  /** The part of the walk to `m` that lies below `router`. */
  ghost function Below(st: ForestState, router: Registrator, m: Registrator): seq<BrokerConfig>
    requires Forest(st) && m in st && router in st[m].path
  {
    PathSplits(st, m, router);
    WalkBelow(st, st[m].path[|st[router].path|..])
  }

  lemma {:induction false} WalkSplits(st: ForestState, router: Registrator, m: Registrator)
    requires Forest(st) && m in st && router in st[m].path
    ensures router in st && WalkIn(st, m) == WalkIn(st, router) + Below(st, router, m)
  {
    PathSplits(st, m, router);
    WalkAppend(st, st[router].path, st[m].path[|st[router].path|..]);
  }

  /**
   * Moving a router swaps, in the walk of each of its descendants, the part above the
   * router for the new parent's walk and the new options; no other walk changes.
   */
  lemma {:induction false} MoveSwapsAncestors(
    st: ForestState, self: Registrator, router: Registrator, options: BrokerConfig, m: Registrator)
    requires Moves(st, self, router) && m in st && options.OnlyIncludeOptions()
    ensures var st' := Include(st, self, router, options);
            Forest(st') &&
            if router in st[m].path then
              WalkIn(st, m) == WalkIn(st, router) + Below(st, router, m) &&
              WalkIn(st', m) == WalkIn(st, self) + [options, router.own] + Below(st, router, m)
            else
              WalkIn(st', m) == WalkIn(st, m)
  {
    var st' := Include(st, self, router, options);
    StillForest(st, self, router, options);
    if router in st[m].path {
      WalkSplits(st, router, m);
      MovedBelow(st, self, router, options, m);
      WalkSplits(st', router, m);
      OtherWalk(st, self, router, options, self);
      assert PathOk(st, router);
      LastOf(st[router].path);
      WalkStep(st', router);
    } else {
      OtherWalk(st, self, router, options, m);
    }
  }

  lemma {:induction false} OtherWalk(
    st: ForestState, self: Registrator, router: Registrator, options: BrokerConfig, m: Registrator)
    requires Moves(st, self, router) && m in st && options.OnlyIncludeOptions() && router !in st[m].path
    ensures Forest(Include(st, self, router, options)) && WalkIn(Include(st, self, router, options), m) == WalkIn(st, m)
  {
    StillForest(st, self, router, options);
    KnownPath(st, m);
    SameWalkBelow(st, self, router, options, st[m].path[1..]);
  }

  lemma {:induction false} MovedBelow(
    st: ForestState, self: Registrator, router: Registrator, options: BrokerConfig, m: Registrator)
    requires Moves(st, self, router) && m in st && options.OnlyIncludeOptions() && router in st[m].path
    ensures var st' := Include(st, self, router, options);
            Forest(st') && router in st'[m].path && Below(st', router, m) == Below(st, router, m)
  {
    StillForest(st, self, router, options);
    PathSplits(st, m, router);
    var below := st[m].path[|st[router].path|..];
    MovedPaths(st, self, router, options, m);
    assert (st[self].path + [router] + below)[|st[self].path|] == router;
    assert (st[self].path + [router] + below)[|st[self].path| + 1..] == below;
    SameWalkBelow(st, self, router, options, below);
  }

  lemma {:induction false} MovedPaths(
    st: ForestState, self: Registrator, router: Registrator, options: BrokerConfig, m: Registrator)
    requires Moves(st, self, router) && m in st && router in st[m].path
    ensures var st' := Include(st, self, router, options);
            router in st && |st[router].path| <= |st[m].path| &&
            st'[m].path == st[self].path + [router] + st[m].path[|st[router].path|..] &&
            st'[router].path == st[self].path + [router]
  {
    assert PathOk(st, m);
    DepthInPath(st, m, router);
    RouterRelocated(st, self, router);
    RelocatedSplits(st[m].path, router, |st[router].path|, st[self].path);
  }

  lemma {:induction false} RelocatedSplits(p: seq<Registrator>, router: Registrator, k: nat, above: seq<Registrator>)
    requires 0 < k <= |p| && p[k - 1] == router
    ensures Relocated(p, router, k - 1, above) == above + [router] + p[k..]
  {
    assert p[k - 1] in p;
    assert p[k - 1..] == [router] + p[k..];
  }

  lemma {:induction false} SameWalkBelow(
    st: ForestState, self: Registrator, router: Registrator, options: BrokerConfig, p: seq<Registrator>)
    requires self in st && router in st && router !in p
    requires forall i :: 0 <= i < |p| ==> p[i] in st
    ensures WalkBelow(Include(st, self, router, options), p) == WalkBelow(st, p)
    decreases |p|
  {
    if p != [] {
      SameWalkBelow(st, self, router, options, p[..|p| - 1]);
    }
  }
}
