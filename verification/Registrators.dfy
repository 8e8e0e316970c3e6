/** Brokers and routers: a forest that `include_router` changes in place. */
module Registrators {
  import opened Wrappers
  import opened BrokerConfigs

  type Subscriber = string

  /** `list.remove`: drops the first occurrence. */
  function Without(rs: seq<Registrator>, r: Registrator): seq<Registrator> {
    if rs == [] then [] else if rs[0] == r then rs[1..] else [rs[0]] + Without(rs[1..], r)
  }

  class Registrator {
    const config: ConfigComposition
    ghost const own: BrokerConfig
    var subscribers: seq<Subscriber>
    var routers: seq<Registrator>
    var parent: Registrator?

    ghost var options: BrokerConfig      // the options of the current inclusion, applied or not
    ghost var path: seq<Registrator>     // from the root down to this registrator

    constructor (config: BrokerConfig)
      ensures fresh(this.config) && own == config
      ensures subscribers == [] && routers == [] && parent == null && path == [this]
      ensures this.config.configs == [Plain(config)] && this.config.rank == 1
    {
      this.config := new ConfigComposition(config);
      own := config;
      subscribers := [];
      routers := [];
      parent := null;
      options := config;
      path := [this];
    }

    ghost function Look(): Node
      reads this, config
    {
      Node(parent, routers, path, options, config.configs, subscribers)
    }

    /** The base `subscriber` method: the weak set keeps one entry for a subscriber it has. */
    method Subscriber(subscriber: Subscriber, ghost nodes: set<Registrator>)
      requires this in nodes && Valid(nodes)
      modifies this`subscribers
      ensures Valid(nodes) && State(nodes) == Register(old(State(nodes)), this, subscriber)
    {
      ghost var before := State(nodes);
      if subscriber !in subscribers {
        subscribers := subscribers + [subscriber];
      }
      StillForestRegister(before, this, subscriber);
      StateIs(nodes, Register(before, this, subscriber));
    }

    /** The `parent` setter. */
    method SetParent(newParent: Registrator)
      requires config.configs != []
      modifies this`parent, (if parent == null then {} else {parent})`routers, config`configs
      ensures parent == newParent
      ensures old(parent) != null && old(parent) != newParent
              ==> old(parent).routers == Without(old(parent.routers), this) &&
                  config.configs == [old(config.configs)[|old(config.configs)| - 1]]
      ensures old(parent) == null || old(parent) == newParent ==> config.configs == old(config.configs)
      ensures old(parent) == newParent ==> newParent.routers == old(newParent.routers)
    {
      if parent != null && newParent != parent {
        parent.routers := Without(parent.routers, this);
        config.Reset();
      }
      parent := newParent;
    }

    /**
     * The caller keeps a router out of its own subtree; `nodes` are all registrators of
     * the program.
     */
    method IncludeRouter(router: Registrator, prefix: string, dependencies: seq<Name>, middlewares: seq<Name>,
                         includeInSchema: Option<bool>, ghost nodes: set<Registrator>)
      requires this in nodes && router in nodes && Valid(nodes)
      requires router !in path
      modifies nodes, Configs(nodes)
      ensures Valid(nodes)
      ensures State(nodes)
           == Include(
                old(State(nodes)), this, router, IncludeOptions(prefix, dependencies, middlewares, includeInSchema))
    {
      ghost var before := State(nodes);
      ghost var depth := |router.path| - 1;
      var optionsConfig := IncludeOptions(prefix, dependencies, middlewares, includeInSchema);
      StillForest(before, this, router, optionsConfig);
      assert PathOk(before, router) && PathOk(before, this) && ConfigsOk(before, router);
      if router.parent == this {
        return;
      }
      Reattach(router, optionsConfig, depth, nodes);
      StateIs(nodes, Include(before, this, router, optionsConfig));
    }

    /** The whole change, on the fields the program has and on the ghost ones. */
    method Reattach(router: Registrator, optionsConfig: BrokerConfig, ghost depth: int, ghost nodes: set<Registrator>)
      requires this in nodes && router in nodes && this != router && router.parent != this
      requires router.parent != null ==> router.parent in nodes
      requires router.config.configs != []
      requires forall m, n :: m in nodes && n in nodes && m.config == n.config ==> m == n
      modifies nodes, Configs(nodes)
      ensures forall m :: m in nodes ==> m.config.rank == |m.path|
      ensures forall m :: m in nodes ==>
                m.Look() == Attached(old(m.Look()), m, this, router, old(router.parent), optionsConfig)
                            .(path := Relocated(old(m.path), router, depth, old(path)))
    {
      ghost var above := path;
      Attach(router, optionsConfig, nodes);
      Relocate(router, above, depth, nodes);
    }

    /** `include_router` after its first line, with the options config already built. */
    method Attach(router: Registrator, optionsConfig: BrokerConfig, ghost nodes: set<Registrator>)
      requires this in nodes && router in nodes && this != router && router.parent != this
      requires router.parent != null ==> router.parent in nodes
      requires router.config.configs != []
      requires forall m, n :: m in nodes && n in nodes && m.config == n.config ==> m == n
      modifies router`parent, router`options, nodes`routers, router.config`configs
      ensures forall m :: m in nodes ==>
                m.Look() == Attached(old(m.Look()), m, this, router, old(router.parent), optionsConfig)
    {
      router.SetParent(this);
      router.Layer(optionsConfig, config);
      routers := routers + [router];
      router.options := optionsConfig;
    }

    /** The two `add_config` calls of `include_router`. */
    method Layer(optionsConfig: BrokerConfig, above: ConfigComposition)
      modifies config`configs
      ensures config.configs
           == [Nested(above)] + (if optionsConfig.Truthy() then [Plain(optionsConfig)] else []) + old(config.configs)
    {
      if optionsConfig.Truthy() {
        config.AddConfig(Plain(optionsConfig));
      }
      config.AddConfig(Nested(above));
    }

    /** Keeps the ghost paths and ranks of the moved subtree up to date. */
    ghost method Relocate(router: Registrator, above: seq<Registrator>, depth: int, nodes: set<Registrator>)
      requires forall m, n :: m in nodes && n in nodes && m.config == n.config ==> m == n
      modifies nodes`path, Configs(nodes)`rank
      ensures forall m :: m in nodes ==>
                m.Look() == old(m.Look()).(path := Relocated(old(m.path), router, depth, above)) &&
                m.config.rank == |m.path|
    {
      forall m | m in nodes {
        m.path := Relocated(m.path, router, depth, above);
      }
      forall m | m in nodes {
        m.config.rank := |m.path|;
      }
    }
  }

  ghost function Configs(nodes: set<Registrator>): set<ConfigComposition> {
    set n | n in nodes :: n.config
  }

  // ----- states of the forest, as values -----

  datatype Node = Node(
    parent: Registrator?,
    routers: seq<Registrator>,
    path: seq<Registrator>,
    options: BrokerConfig,
    configs: seq<Layer>,
    subscribers: seq<Subscriber>)

  type ForestState = map<Registrator, Node>

  ghost function State(nodes: set<Registrator>): (st: ForestState)
    reads nodes, Configs(nodes)
    ensures st.Keys == nodes
  {
    map n | n in nodes :: n.Look()
  }

  lemma {:induction false} StateIs(nodes: set<Registrator>, st: ForestState)
    requires st.Keys == nodes && forall m :: m in nodes ==> m.Look() == st[m]
    ensures State(nodes) == st
  {}

  ghost predicate Valid(nodes: set<Registrator>)
    reads nodes, Configs(nodes)
  {
    Forest(State(nodes)) && forall n :: n in nodes ==> n.config.rank == |n.path|
  }

  ghost predicate Distinct<T>(s: seq<T>) {
    forall i, j :: 0 <= i < j < |s| ==> s[i] != s[j]
  }

  ghost predicate PathOk(st: ForestState, n: Registrator)
    requires n in st
  {
    var p := st[n].path;
    p != [] && p[|p| - 1] == n &&
    (forall i :: 0 <= i < |p| ==> p[i] in st && st[p[i]].path == p[..i + 1]) &&
    if st[n].parent == null then |p| == 1 else st[n].parent in st && p == st[st[n].parent].path + [n]
  }

  /** A router is listed once, by its parent and by nobody else. */
  ghost predicate RoutersOk(st: ForestState, n: Registrator)
    requires n in st
  {
    Distinct(st[n].routers) &&
    (forall i :: 0 <= i < |st[n].routers| ==> st[n].routers[i] in st) &&
    forall c: Registrator :: c in st ==> (c in st[n].routers <==> st[c].parent == n)
  }

  /** The configs are the parent's composition, the include options unless falsy, the own config. */
  ghost predicate ConfigsOk(st: ForestState, n: Registrator)
    requires n in st
  {
    if st[n].parent == null then st[n].configs == [Plain(n.own)]
    else
      st[n].options.OnlyIncludeOptions() &&
      st[n].configs
        == [Nested(st[n].parent.config)] + (if st[n].options.Truthy() then [Plain(st[n].options)] else [])
           + [Plain(n.own)]
  }

  ghost predicate Forest(st: ForestState) {
    (forall n {:trigger PathOk(st, n)} :: n in st ==> PathOk(st, n)) &&
    (forall n {:trigger RoutersOk(st, n)} :: n in st ==> RoutersOk(st, n)) &&
    (forall n {:trigger ConfigsOk(st, n)} :: n in st ==> ConfigsOk(st, n)) &&
    forall m, n :: m in st && n in st && m.config == n.config ==> m == n
  }

  // ----- one call of include_router -----

  /** The routers of `m` after `router` left `from` for `to`. */
  ghost function NewRouters(
    rs: seq<Registrator>, m: Registrator, to: Registrator, router: Registrator, from: Registrator?):
    seq<Registrator>
  {
    (if m == from then Without(rs, router) else rs) + if m == to then [router] else []
  }

  ghost function NewConfigs(configs: seq<Layer>, hadParent: bool, to: Registrator, options: BrokerConfig): seq<Layer>
  {
    [Nested(to.config)] + (if options.Truthy() then [Plain(options)] else []) +
    if hadParent && configs != [] then [configs[|configs| - 1]] else configs
  }

  /** Where a registrator with this path stands once `router`, at `depth` in it, hangs below `above`. */
  ghost function Relocated(
    p: seq<Registrator>, router: Registrator, depth: int, above: seq<Registrator>): seq<Registrator> {
    if router in p && 0 <= depth < |p| then above + p[depth..] else p
  }

  /** What becomes of `m` when `router` leaves `from` for `to`. */
  ghost function Attached(
    n: Node, m: Registrator, to: Registrator, router: Registrator, from: Registrator?,
    options: BrokerConfig): Node {
    if m == router then
      n.(parent := to,
         routers := NewRouters(n.routers, m, to, router, from),
         options := options,
         configs := NewConfigs(n.configs, from != null, to, options))
    else
      n.(routers := NewRouters(n.routers, m, to, router, from))
  }

  ghost function Include(
    st: ForestState, self: Registrator, router: Registrator, options: BrokerConfig): (st': ForestState)
    requires self in st && router in st
    ensures st'.Keys == st.Keys
  {
    if st[router].parent == self then st
    else
      map m | m in st ::
        Attached(st[m], m, self, router, st[router].parent, options)
        .(path := Relocated(st[m].path, router, |st[router].path| - 1, st[self].path))
  }

  ghost function Register(st: ForestState, r: Registrator, s: Subscriber): (st': ForestState)
    requires r in st
  {
    if s in st[r].subscribers then st else st[r := st[r].(subscribers := st[r].subscribers + [s])]
  }

  /** A new registrator stands alone. */
  ghost function Create(st: ForestState, r: Registrator): ForestState {
    st[r := Node(null, [], [r], r.own, [Plain(r.own)], [])]
  }

  ghost predicate Unused(st: ForestState, r: Registrator) {
    r !in st && forall n :: n in st ==> n.config != r.config
  }

  /** A registrator occurs in a path only at its own depth. */
  lemma {:induction false} DepthInPath(st: ForestState, n: Registrator, r: Registrator)
    requires n in st && PathOk(st, n) && r in st[n].path
    ensures r in st && 0 < |st[r].path| <= |st[n].path|
    ensures st[n].path[|st[r].path| - 1] == r && st[r].path == st[n].path[..|st[r].path|]
  {
    var i :| 0 <= i < |st[n].path| && st[n].path[i] == r;
  }

  lemma {:induction false} WithoutMember(rs: seq<Registrator>, r: Registrator, c: Registrator)
    requires Distinct(rs)
    ensures c in Without(rs, r) <==> c in rs && c != r
  {
    if rs != [] {
      assert rs[0] !in rs[1..];
      assert c in rs <==> c == rs[0] || c in rs[1..];
      WithoutMember(rs[1..], r, c);
    }
  }

  lemma {:induction false} WithoutDistinct(rs: seq<Registrator>, r: Registrator)
    requires Distinct(rs)
    ensures Distinct(Without(rs, r))
  {
    if rs != [] {
      WithoutDistinct(rs[1..], r);
      if rs[0] != r {
        WithoutMember(rs[1..], r, rs[0]);
        assert rs[0] !in rs[1..];
        var w := Without(rs[1..], r);
        assert forall j :: 0 <= j < |w| ==> w[j] in w;
      }
    }
  }

  lemma {:induction false} StillForestRegister(st: ForestState, r: Registrator, s: Subscriber)
    requires Forest(st) && r in st
    ensures Forest(Register(st, r, s))
  {
    var st' := Register(st, r, s);
    forall m | m in st' ensures PathOk(st', m) && RoutersOk(st', m) && ConfigsOk(st', m) {
      assert PathOk(st, m) && RoutersOk(st, m) && ConfigsOk(st, m);
    }
  }

  lemma {:induction false} StillForestCreate(st: ForestState, r: Registrator)
    requires Forest(st) && Unused(st, r)
    ensures Forest(Create(st, r))
  {
    var st' := Create(st, r);
    forall m | m in st' ensures PathOk(st', m) && RoutersOk(st', m) && ConfigsOk(st', m) {
      if m != r {
        assert PathOk(st, m) && RoutersOk(st, m) && ConfigsOk(st, m);
      } else {
        forall c | c in st ensures st[c].parent != r {
          assert PathOk(st, c);
        }
      }
    }
  }

  ghost predicate Moves(st: ForestState, self: Registrator, router: Registrator) {
    self in st && router in st && Forest(st) && router !in st[self].path && st[router].parent != self
  }

  /** Every call that keeps a router out of its own subtree keeps the forest. */
  lemma {:induction false} StillForest(st: ForestState, self: Registrator, router: Registrator, options: BrokerConfig)
    requires Forest(st) && self in st && router in st && router !in st[self].path && options.OnlyIncludeOptions()
    ensures Forest(Include(st, self, router, options))
  {
    if st[router].parent != self {
      var st' := Include(st, self, router, options);
      forall m | m in st' ensures PathOk(st', m) {
        PathKept(st, self, router, options, m);
        PathParentKept(st, self, router, options, m);
      }
      forall m | m in st' ensures RoutersOk(st', m) {
        RoutersKept(st, self, router, options, m);
      }
      forall m | m in st' ensures ConfigsOk(st', m) {
        ConfigsKept(st, self, router, options, m);
      }
    }
  }

  lemma {:induction false} ConfigsKept(
    st: ForestState, self: Registrator, router: Registrator, options: BrokerConfig, m: Registrator)
    requires Moves(st, self, router) && m in st && options.OnlyIncludeOptions()
    ensures ConfigsOk(Include(st, self, router, options), m)
  {
    assert ConfigsOk(st, m);
  }

  lemma {:induction false} NewRoutersMember(
    rs: seq<Registrator>, m: Registrator, to: Registrator, router: Registrator, from: Registrator?, c: Registrator)
    requires Distinct(rs) && to != from && (router in rs <==> m == from)
    ensures c in NewRouters(rs, m, to, router, from) <==> (c == router && m == to) || (c != router && c in rs)
  {
    WithoutMember(rs, router, c);
  }

  lemma {:induction false} NewRoutersDistinct(
    rs: seq<Registrator>, m: Registrator, to: Registrator, router: Registrator, from: Registrator?)
    requires Distinct(rs) && to != from && (router in rs <==> m == from)
    ensures Distinct(NewRouters(rs, m, to, router, from))
  {
    WithoutDistinct(rs, router);
    WithoutMember(rs, router, router);
  }

  lemma {:induction false} RoutersKept(
    st: ForestState, self: Registrator, router: Registrator, options: BrokerConfig, m: Registrator)
    requires Moves(st, self, router) && m in st
    ensures RoutersOk(Include(st, self, router, options), m)
  {
    assert RoutersOk(st, m);
    var rs := NewRouters(st[m].routers, m, self, router, st[router].parent);
    assert Include(st, self, router, options)[m].routers == rs;
    NewRoutersDistinct(st[m].routers, m, self, router, st[router].parent);
    forall i | 0 <= i < |rs| ensures rs[i] in st {
      NewRoutersMember(st[m].routers, m, self, router, st[router].parent, rs[i]);
    }
    forall c | c in st ensures c in rs <==> (c == router && m == self) || (c != router && c in st[m].routers) {
      NewRoutersMember(st[m].routers, m, self, router, st[router].parent, c);
    }
  }

  lemma {:induction false} Splice<T>(above: seq<T>, p: seq<T>, k: nat, i: nat)
    requires k <= |p| && i < |above| + |p| - k
    ensures i < |above| ==> (above + p[k..])[i] == above[i] && (above + p[k..])[..i + 1] == above[..i + 1]
    ensures i >= |above| ==>
              var j := k + i - |above|;
              (above + p[k..])[i] == p[j] && (above + p[k..])[..i + 1] == above + p[..j + 1][k..]
  {}

  lemma {:induction false} PathKept(
    st: ForestState, self: Registrator, router: Registrator, options: BrokerConfig, m: Registrator)
    requires Moves(st, self, router) && m in st
    ensures var st' := Include(st, self, router, options);
            var p := st'[m].path;
            p != [] && p[|p| - 1] == m && forall i :: 0 <= i < |p| ==> p[i] in st' && st'[p[i]].path == p[..i + 1]
  {
    var st' := Include(st, self, router, options);
    PathEndKept(st, self, router, options, m);
    forall i | 0 <= i < |st'[m].path|
      ensures st'[m].path[i] in st' && st'[st'[m].path[i]].path == st'[m].path[..i + 1]
    {
      if router in st[m].path {
        MovedPathKept(st, self, router, options, m, i);
      } else {
        OtherPathKept(st, self, router, options, m, i);
      }
    }
  }

  lemma {:induction false} PathEndKept(
    st: ForestState, self: Registrator, router: Registrator, options: BrokerConfig, m: Registrator)
    requires Moves(st, self, router) && m in st
    ensures var p := Include(st, self, router, options)[m].path;
            p != [] && p[|p| - 1] == m
  {
    assert PathOk(st, m);
    if router in st[m].path {
      DepthInPath(st, m, router);
    }
  }

  lemma {:induction false} OtherPathKept(
    st: ForestState, self: Registrator, router: Registrator, options: BrokerConfig, m: Registrator, i: nat)
    requires Moves(st, self, router) && m in st && router !in st[m].path
    requires i < |Include(st, self, router, options)[m].path|
    ensures var st' := Include(st, self, router, options);
            st'[m].path[i] in st' && st'[st'[m].path[i]].path == st'[m].path[..i + 1]
  {
    assert PathOk(st, m);
    assert router !in st[m].path[..i + 1];
  }

  lemma {:induction false} MovedPathKept(
    st: ForestState, self: Registrator, router: Registrator, options: BrokerConfig, m: Registrator, i: nat)
    requires Moves(st, self, router) && m in st && router in st[m].path
    requires i < |Include(st, self, router, options)[m].path|
    ensures var st' := Include(st, self, router, options);
            st'[m].path[i] in st' && st'[st'[m].path[i]].path == st'[m].path[..i + 1]
  {
    var p, above, k := st[m].path, st[self].path, |st[router].path| - 1;
    assert PathOk(st, m) && PathOk(st, self);
    DepthInPath(st, m, router);
    Splice(above, p, k, i);
    if i < |above| {
      assert router !in above[..i + 1];
    } else {
      assert p[..k + i - |above| + 1][k] == router;
    }
  }

  lemma {:induction false} RelocatedChild(
    q: seq<Registrator>, m: Registrator, router: Registrator, depth: int, above: seq<Registrator>)
    requires m != router && (router in q ==> 0 <= depth < |q|)
    ensures Relocated(q + [m], router, depth, above) == Relocated(q, router, depth, above) + [m]
  {
    if router in q {
      assert (q + [m])[depth..] == q[depth..] + [m];
    }
  }

  lemma {:induction false} PathParentKept(
    st: ForestState, self: Registrator, router: Registrator, options: BrokerConfig, m: Registrator)
    requires Moves(st, self, router) && m in st
    ensures var st' := Include(st, self, router, options);
            if st'[m].parent == null then |st'[m].path| == 1
            else st'[m].parent in st' && st'[m].path == st'[st'[m].parent].path + [m]
  {
    assert PathOk(st, m) && PathOk(st, router) && PathOk(st, self);
    if m == router {
      RouterRelocated(st, self, router);
    } else if st[m].parent != null {
      var q := st[m].parent;
      assert PathOk(st, q);
      if router in st[q].path {
        DepthInPath(st, q, router);
      }
      RelocatedChild(st[q].path, m, router, |st[router].path| - 1, st[self].path);
    }
  }

  lemma {:induction false} RouterRelocated(st: ForestState, self: Registrator, router: Registrator)
    requires Moves(st, self, router)
    ensures Relocated(st[router].path, router, |st[router].path| - 1, st[self].path) == st[self].path + [router]
    ensures Relocated(st[self].path, router, |st[router].path| - 1, st[self].path) == st[self].path
  {
    assert PathOk(st, router);
    LastOf(st[router].path);
  }

  lemma {:induction false} LastOf<T>(p: seq<T>)
    requires p != []
    ensures p[|p| - 1] in p && p[|p| - 1..] == [p[|p| - 1]]
  {
  }
}
