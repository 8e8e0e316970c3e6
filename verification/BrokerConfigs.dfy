/** Broker configs, and the compositions through which a router reads its ancestors' options. */
module BrokerConfigs {
  import opened Wrappers

  // Values the framework only passes on are named by strings.
  type Name = string

  /** The options of one broker, router or `include_router` call. */
  datatype BrokerConfig = BrokerConfig(
    prefix: string,
    includeInSchema: Option<bool>,
    middlewares: seq<Name>,
    parser: Option<Name>,
    decoder: Option<Name>,
    codec: Option<Name>,
    producer: Name,
    dependencies: seq<Name>,
    ackPolicy: Option<Name>,  // None stands for EMPTY
    extraContext: map<Name, Name>)
  {
    /** `__bool__`. */
    predicate Truthy() {
      includeInSchema.Some? || middlewares != [] || dependencies != [] || prefix != ""
    }

    /** Sets nothing but what `include_router` can set. */
    ghost predicate OnlyIncludeOptions() {
      parser.None? && decoder.None? && codec.None? && ackPolicy.None? && extraContext == map[]
    }
  }

  /** The config that `include_router` builds from its keyword arguments. */
  function IncludeOptions(
    prefix: string, dependencies: seq<Name>, middlewares: seq<Name>, includeInSchema: Option<bool>):
    (c: BrokerConfig)
    ensures c.OnlyIncludeOptions()
  {
    BrokerConfig(prefix, includeInSchema, middlewares, None, None, None, "ProducerUnset", dependencies, None, map[])
  }

  datatype Layer = Plain(config: BrokerConfig) | Nested(composition: ConfigComposition)

  /** Nesting is well-founded in `all`: `rank` falls from a composition to the ones inside it. */
  ghost predicate WellNested(all: set<ConfigComposition>)
    reads all
  {
    forall c :: c in all ==>
      c.configs != [] &&
      forall i :: 0 <= i < |c.configs| && c.configs[i].Nested? ==>
        c.configs[i].composition in all && c.configs[i].composition.rank < c.rank
  }

  class ConfigComposition {
    var configs: seq<Layer>
    ghost var rank: nat

    constructor (config: BrokerConfig)
      ensures configs == [Plain(config)] && rank == 1
    {
      configs := [Plain(config)];
      rank := 1;
    }

    method AddConfig(config: Layer)
      modifies this`configs
      ensures configs == [config] + old(configs)
    {
      configs := [config] + configs;
    }

    method Reset()
      requires configs != []
      modifies this`configs
      ensures configs == [old(configs)[|old(configs)| - 1]]
    {
      configs := [configs[|configs| - 1]];
    }

    /** Broker priority options, such as `producer`: `broker_config` is the first config. */
    function Root<T>(get: BrokerConfig -> T, ghost all: set<ConfigComposition>): T
      requires this in all && WellNested(all)
      reads all
      decreases rank
    {
      match configs[0]
      case Plain(c) => get(c)
      case Nested(k) => k.Root(get, all)
    }

    /** First valuable options, from config `i` on: parser, decoder and codec. */
    function First<T>(get: BrokerConfig -> Option<T>, i: nat, ghost all: set<ConfigComposition>): Option<T>
      requires this in all && WellNested(all) && i <= |configs|
      reads all
      decreases rank, |configs| - i
    {
      if i == |configs| then None
      else
        var v := match configs[i] case Plain(c) => get(c) case Nested(k) => k.First(get, 0, all);
        if v.Some? then v else First(get, i + 1, all)
    }

    /** The last option set among the first `i` configs: the acknowledgement policy. */
    function Last<T>(get: BrokerConfig -> Option<T>, i: nat, ghost all: set<ConfigComposition>): Option<T>
      requires this in all && WellNested(all) && i <= |configs|
      reads all
      decreases rank, i
    {
      if i == 0 then None
      else
        var v := match configs[i - 1]
          case Plain(c) => get(c)
          case Nested(k) => assert k.rank < rank; k.Last(get, |k.configs|, all);
        if v.Some? then v else Last(get, i - 1, all)
    }

    /** Merged options, from config `i` on: prefix, middlewares and dependencies. */
    function Merged<T>(get: BrokerConfig -> seq<T>, i: nat, ghost all: set<ConfigComposition>): seq<T>
      requires this in all && WellNested(all) && i <= |configs|
      reads all
      decreases rank, |configs| - i
    {
      if i == |configs| then []
      else
        (match configs[i] case Plain(c) => get(c) case Nested(k) => k.Merged(get, 0, all)) + Merged(get, i + 1, all)
    }

    /** `include_in_schema`, from config `i` on: no config may say False. */
    function InSchema(i: nat, ghost all: set<ConfigComposition>): bool
      requires this in all && WellNested(all) && i <= |configs|
      reads all
      decreases rank, |configs| - i
    {
      if i == |configs| then true
      else
        (match configs[i] case Plain(c) => c.includeInSchema != Some(false) case Nested(k) => k.InSchema(0, all)) &&
        InSchema(i + 1, all)
    }

    /** `extra_context` of the first `i` configs: later ones overwrite. */
    function ExtraContext(i: nat, ghost all: set<ConfigComposition>): map<Name, Name>
      requires this in all && WellNested(all) && i <= |configs|
      reads all
      decreases rank, i
    {
      if i == 0 then map[]
      else
        ExtraContext(i - 1, all) +
        match configs[i - 1]
        case Plain(c) => c.extraContext
        case Nested(k) => assert k.rank < rank; k.ExtraContext(|k.configs|, all)
    }
  }

  // ----- the same options over a flat list of configs, outermost first -----

  function FlatFirst<T>(get: BrokerConfig -> Option<T>, walk: seq<BrokerConfig>): Option<T> {
    if walk == [] then None else if get(walk[0]).Some? then get(walk[0]) else FlatFirst(get, walk[1..])
  }

  function FlatLast<T>(get: BrokerConfig -> Option<T>, walk: seq<BrokerConfig>): Option<T> {
    if walk == [] then None
    else
      var n := |walk| - 1;
      if get(walk[n]).Some? then get(walk[n]) else FlatLast(get, walk[..n])
  }

  function FlatMerged<T>(get: BrokerConfig -> seq<T>, walk: seq<BrokerConfig>): seq<T> {
    if walk == [] then [] else FlatMerged(get, walk[..|walk| - 1]) + get(walk[|walk| - 1])
  }

  predicate FlatInSchema(walk: seq<BrokerConfig>) {
    forall i :: 0 <= i < |walk| ==> walk[i].includeInSchema != Some(false)
  }

  function FlatExtraContext(walk: seq<BrokerConfig>): map<Name, Name> {
    if walk == [] then map[] else FlatExtraContext(walk[..|walk| - 1]) + walk[|walk| - 1].extraContext
  }

  lemma {:induction false} FlatFirstAppend<T>(get: BrokerConfig -> Option<T>, walk: seq<BrokerConfig>, c: BrokerConfig)
    ensures FlatFirst(get, walk + [c]) == if FlatFirst(get, walk).Some? then FlatFirst(get, walk) else get(c)
  {
    if walk == [] {
      assert walk + [c] == [c];
    } else {
      assert (walk + [c])[1..] == walk[1..] + [c];
      FlatFirstAppend(get, walk[1..], c);
    }
  }
}
