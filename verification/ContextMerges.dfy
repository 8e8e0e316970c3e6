/** Merging any number of dependency-injection configs, against the plain list of them. */
module ContextMerges {
  import opened Contexts
  import opened Wrappers

  /** A merge of configs, with the operands grouped in any way; `marker` names the composition it creates. */
  datatype Merge = One(config: FastDependsConfig) | Two(left: Merge, right: Merge, marker: Value)

  /** What `|` makes of it. */
  function Result(m: Merge): FastDependsConfig {
    match m
    case One(c) => c
    case Two(left, right, marker) => Result(left).Or(Result(right), marker)
  }

  function Operands(m: Merge): (cs: seq<FastDependsConfig>)
    ensures cs != []
  {
    match m
    case One(c) => [c]
    case Two(left, right, _) => Operands(left) + Operands(right)
  }

  /** The first value that is set. */
  function FirstSet<T>(get: FastDependsConfig -> Option<T>, cs: seq<FastDependsConfig>): Option<T> {
    if cs == [] then None else if get(cs[0]).Some? then get(cs[0]) else FirstSet(get, cs[1..])
  }

  function InUse(c: FastDependsConfig): Option<Serializer> {
    if c.serializer.Use? then Some(c.serializer) else None
  }

  /** Decorators, those of the last config first. */
  function Decorators(cs: seq<FastDependsConfig>): seq<string> {
    if cs == [] then [] else cs[|cs| - 1].callDecorators + Decorators(cs[..|cs| - 1])
  }

  /** The configs' repositories in the order they are asked: those of the last config first. */
  function Repos(cs: seq<FastDependsConfig>): seq<Repo> {
    if cs == [] then [] else Flat(cs[|cs| - 1].context) + Repos(cs[..|cs| - 1])
  }

  /** Everything but the entry a composition keeps for itself, read off the list of merged configs. */
  ghost predicate Merges(m: FastDependsConfig, cs: seq<FastDependsConfig>) {
    cs != [] &&
    (m.useFastdepends <==> forall i :: 0 <= i < |cs| ==> cs[i].useFastdepends) &&
    m.provider == cs[|cs| - 1].provider &&
    m.serializer == (var s := FirstSet(InUse, cs); if s.Some? then s.value else cs[|cs| - 1].serializer) &&
    m.callDecorators == Decorators(cs) &&
    m.getDependent == FirstSet((c: FastDependsConfig) => c.getDependent, cs) &&
    forall key, localOnly :: key != "context" || localOnly ==>
      Lookup(m.context, key, localOnly) == FirstFound(Repos(cs), key, localOnly)
  }

  lemma {:induction false} DecoratorsAppend(a: seq<FastDependsConfig>, b: seq<FastDependsConfig>)
    ensures Decorators(a + b) == Decorators(b) + Decorators(a)
    decreases |b|
  {
    if b == [] {
      assert a + b == a;
    } else {
      assert (a + b)[..|a + b| - 1] == a + b[..|b| - 1];
      DecoratorsAppend(a, b[..|b| - 1]);
    }
  }

  lemma {:induction false} ReposAppend(a: seq<FastDependsConfig>, b: seq<FastDependsConfig>)
    ensures Repos(a + b) == Repos(b) + Repos(a)
    decreases |b|
  {
    if b == [] {
      assert a + b == a;
    } else {
      assert (a + b)[..|a + b| - 1] == a + b[..|b| - 1];
      ReposAppend(a, b[..|b| - 1]);
    }
  }

  lemma {:induction false} FirstSetAppend<T>(
    get: FastDependsConfig -> Option<T>, a: seq<FastDependsConfig>, b: seq<FastDependsConfig>)
    ensures FirstSet(get, a + b) == if FirstSet(get, a).Some? then FirstSet(get, a) else FirstSet(get, b)
    decreases |a|
  {
    if a == [] {
      assert a + b == b;
    } else {
      assert (a + b)[1..] == a[1..] + b;
      FirstSetAppend(get, a[1..], b);
    }
  }

  /** A serializer found is in use, and if none is found none is in use. */
  lemma {:induction false} FoundInUse(cs: seq<FastDependsConfig>)
    requires cs != []
    ensures match FirstSet(InUse, cs) case Some(s) => s.Use? case None => !cs[|cs| - 1].serializer.Use?
    decreases |cs|
  {
    if |cs| > 1 {
      FoundInUse(cs[1..]);
    }
  }

  lemma {:induction false} AllUse(a: seq<FastDependsConfig>, b: seq<FastDependsConfig>)
    ensures (forall i :: 0 <= i < |a + b| ==> (a + b)[i].useFastdepends) <==>
            (forall i :: 0 <= i < |a| ==> a[i].useFastdepends) && (forall i :: 0 <= i < |b| ==> b[i].useFastdepends)
  {
    if forall i :: 0 <= i < |a + b| ==> (a + b)[i].useFastdepends {
      forall i | 0 <= i < |a| ensures a[i].useFastdepends {
        assert (a + b)[i] == a[i];
      }
      forall i | 0 <= i < |b| ensures b[i].useFastdepends {
        assert (a + b)[|a| + i] == b[i];
      }
    }
  }

  lemma {:induction false} LooksJoin(
    a: Context, b: Context, marker: Value, left: seq<FastDependsConfig>, right: seq<FastDependsConfig>,
    key: Key, localOnly: bool)
    requires key != "context" || localOnly
    requires Lookup(a, key, localOnly) == FirstFound(Repos(left), key, localOnly)
    requires Lookup(b, key, localOnly) == FirstFound(Repos(right), key, localOnly)
    ensures Lookup(Composed(Blank(marker), [b, a]), key, localOnly) == FirstFound(Repos(left + right), key, localOnly)
  {
    MergedLookup(a, b, marker, key, localOnly);
    FirstFoundAppend(Flat(b), Flat(a), key, localOnly);
    LooksUpFlat(a, key, localOnly);
    LooksUpFlat(b, key, localOnly);
    ReposAppend(left, right);
    FirstFoundAppend(Repos(right), Repos(left), key, localOnly);
  }

  lemma {:induction false} MergesJoin(
    a: FastDependsConfig, b: FastDependsConfig, marker: Value,
    left: seq<FastDependsConfig>, right: seq<FastDependsConfig>)
    requires Merges(a, left) && Merges(b, right)
    ensures Merges(a.Or(b, marker), left + right)
  {
    AllUse(left, right);
    FirstSetAppend(InUse, left, right);
    FoundInUse(left);
    FoundInUse(right);
    FirstSetAppend((c: FastDependsConfig) => c.getDependent, left, right);
    DecoratorsAppend(left, right);
    forall key, localOnly | key != "context" || localOnly
      ensures Lookup(a.Or(b, marker).context, key, localOnly) == FirstFound(Repos(left + right), key, localOnly)
    {
      LooksJoin(a.context, b.context, marker, left, right, key, localOnly);
    }
  }

  lemma {:induction false} MergesOne(c: FastDependsConfig)
    ensures Merges(c, [c])
  {
    assert [c][..0] == [] && [c][1..] == [];
    assert Decorators([c]) == c.callDecorators + Decorators([c][..0]);
    assert Repos([c]) == Flat(c.context) + Repos([c][..0]);
    assert Flat(c.context) + [] == Flat(c.context);
    assert Decorators([c][..0]) == [] && Repos([c][..0]) == [];
    assert FirstSet(InUse, [c][1..]).None? && FirstSet((d: FastDependsConfig) => d.getDependent, [c][1..]).None?;
    forall key, localOnly | key != "context" || localOnly
      ensures Lookup(c.context, key, localOnly) == FirstFound(Repos([c]), key, localOnly)
    {
      LooksUpFlat(c.context, key, localOnly);
    }
  }

  /**
   * However the operands of a merge are grouped: fast-depends is on if it is on in all of them, the provider is the
   * last one's, the serializer the first one in use or else the last one's, `get_dependent` the first one set,
   * and decorators and lookups go from the last config to the first.
   */
  lemma {:induction false} MergesOperands(m: Merge)
    ensures Merges(Result(m), Operands(m))
    ensures m.Two? ==> Lookup(Result(m).context, "context", false) == Some(m.marker)
    decreases m
  {
    match m {
      case One(c) => MergesOne(c);
      case Two(left, right, marker) =>
        MergesOperands(left);
        MergesOperands(right);
        MergesJoin(Result(left), Result(right), marker, Operands(left), Operands(right));
    }
  }
}
