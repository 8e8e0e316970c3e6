/** Which subscribers a broker sees, and runs of registrations and inclusions. */
module RouterSubscribers {
  import opened BrokerConfigs
  import opened Registrators

  // ----- flattening the tree -----

  /** The registrators not on the way from the root to `r`. */
  ghost function Elsewhere(st: ForestState, r: Registrator): set<Registrator>
    requires r in st
  {
    st.Keys - set i | 0 <= i < |st[r].path| :: st[r].path[i]
  }

  lemma {:induction false} ChildPath(st: ForestState, r: Registrator, i: nat)
    requires Forest(st) && r in st && i < |st[r].routers|
    ensures var c := st[r].routers[i];
            c in st && st[c].parent == r && st[c].path == st[r].path + [c] && c !in st[r].path &&
            Elsewhere(st, c) < Elsewhere(st, r)
  {
    var c := st[r].routers[i];
    assert RoutersOk(st, r);
    assert PathOk(st, c) && PathOk(st, r);
    var p := st[r].path;
    if c in p {
      DepthInPath(st, r, c);
    }
    assert forall j :: 0 <= j < |p| ==> st[c].path[j] == p[j];
    assert st[c].path[|p|] == c;
    assert c in Elsewhere(st, r) && c !in Elsewhere(st, c);
  }

  /** The `subscribers` property: the own ones, then those of each router. */
  ghost function SubscribersOf(st: ForestState, r: Registrator): seq<Subscriber>
    requires Forest(st) && r in st
    decreases Elsewhere(st, r), |st[r].routers| + 1
  {
    st[r].subscribers + RouterSubscribersOf(st, r, |st[r].routers|)
  }

  /** The subscribers of the first `n` routers of `r`. */
  ghost function RouterSubscribersOf(st: ForestState, r: Registrator, n: nat): seq<Subscriber>
    requires Forest(st) && r in st && n <= |st[r].routers|
    decreases Elsewhere(st, r), n
  {
    if n == 0 then []
    else
      ChildPath(st, r, n - 1);
      RouterSubscribersOf(st, r, n - 1) + SubscribersOf(st, st[r].routers[n - 1])
  }

  /** The recursive read over the live routers; `st` is the state they are in. */
  method Subscribers(r: Registrator, ghost st: ForestState) returns (subscribers: seq<Subscriber>)
    requires Forest(st) && r in st && forall m :: m in st ==> m.Look() == st[m]
    ensures subscribers == SubscribersOf(st, r)
    decreases Elsewhere(st, r)
  {
    assert st[r] == r.Look();
    subscribers := r.subscribers;
    for i := 0 to |r.routers|
      invariant subscribers == r.subscribers + RouterSubscribersOf(st, r, i)
    {
      ChildPath(st, r, i);
      var below := Subscribers(r.routers[i], st);
      subscribers := subscribers + below;
    }
  }

  // ----- who is in the list -----

  ghost predicate Owns(st: ForestState, r: Registrator, n: Registrator, s: Subscriber) {
    n in st && r in st[n].path && s in st[n].subscribers
  }

  /** Each subscriber object was registered on one registrator. */
  ghost predicate RegisteredOnce(st: ForestState) {
    (forall n :: n in st ==> Distinct(st[n].subscribers)) &&
    forall m, n, s :: m in st && n in st && s in st[m].subscribers && s in st[n].subscribers ==> m == n
  }

  lemma {:induction false} ListedHasOwner(st: ForestState, r: Registrator, s: Subscriber) returns (n: Registrator)
    requires Forest(st) && r in st && s in SubscribersOf(st, r)
    ensures Owns(st, r, n, s)
    decreases Elsewhere(st, r), |st[r].routers| + 1
  {
    if s in st[r].subscribers {
      n := r;
      assert PathOk(st, r);
    } else {
      n := ListedBelowHasOwner(st, r, |st[r].routers|, s);
    }
  }

  lemma {:induction false} ListedBelowHasOwner(
    st: ForestState, r: Registrator, k: nat, s: Subscriber) returns (n: Registrator)
    requires Forest(st) && r in st && k <= |st[r].routers| && s in RouterSubscribersOf(st, r, k)
    ensures Owns(st, r, n, s) && exists i :: 0 <= i < k && st[r].routers[i] in st[n].path
    decreases Elsewhere(st, r), k
  {
    ChildPath(st, r, k - 1);
    var c := st[r].routers[k - 1];
    if s in SubscribersOf(st, c) {
      n := ListedHasOwner(st, c, s);
      assert PathOk(st, n);
      DepthInPath(st, n, c);
      assert PathOk(st, r);
      assert st[n].path[|st[r].path| - 1] == r;
    } else {
      n := ListedBelowHasOwner(st, r, k - 1, s);
    }
  }

  lemma {:induction false} OwnedIsListed(st: ForestState, r: Registrator, n: Registrator, s: Subscriber)
    requires Forest(st) && r in st && Owns(st, r, n, s)
    ensures s in SubscribersOf(st, r)
    decreases Elsewhere(st, r), |st[r].routers| + 1
  {
    if n != r {
      var c := NextOnPath(st, r, n);
      var i :| 0 <= i < |st[r].routers| && st[r].routers[i] == c;
      ChildPath(st, r, i);
      OwnedIsListed(st, c, n, s);
      ListedBelow(st, r, i, |st[r].routers|, s);
    }
  }

  lemma {:induction false} NextOnPath(st: ForestState, r: Registrator, n: Registrator) returns (c: Registrator)
    requires Forest(st) && r in st && n in st && r in st[n].path && n != r
    ensures c in st[r].routers && c in st[n].path
  {
    assert PathOk(st, n);
    DepthInPath(st, n, r);
    var p, k := st[n].path, |st[r].path|;
    assert k < |p|;
    c := p[k];
    assert st[c].path == p[..k + 1];
    assert PathOk(st, c) && RoutersOk(st, r);
    var q := st[c].parent;
    assert st[c].path[..k] == p[..k];
    assert PathOk(st, q) && st[q].path == p[..k];
  }

  lemma {:induction false} ListedBelow(st: ForestState, r: Registrator, i: nat, k: nat, s: Subscriber)
    requires Forest(st) && r in st && i < k <= |st[r].routers|
    requires st[r].routers[i] in st && s in SubscribersOf(st, st[r].routers[i])
    ensures s in RouterSubscribersOf(st, r, k)
    decreases k
  {
    if i < k - 1 {
      ListedBelow(st, r, i, k - 1, s);
    }
  }

  /** The list holds what is registered in the subtree, each once. */
  lemma {:induction false} SubscribersExact(st: ForestState, r: Registrator)
    requires Forest(st) && RegisteredOnce(st) && r in st
    ensures Distinct(SubscribersOf(st, r))
    ensures forall s :: s in SubscribersOf(st, r) <==> exists n :: Owns(st, r, n, s)
  {
    forall s ensures s in SubscribersOf(st, r) <==> exists n :: Owns(st, r, n, s) {
      if s in SubscribersOf(st, r) {
        var n := ListedHasOwner(st, r, s);
      }
      if n :| Owns(st, r, n, s) {
        OwnedIsListed(st, r, n, s);
      }
    }
    NothingTwice(st, r);
  }

  lemma {:induction false} DistinctConcat<T>(a: seq<T>, b: seq<T>)
    requires Distinct(a) && Distinct(b) && forall i, j :: 0 <= i < |a| && 0 <= j < |b| ==> a[i] != b[j]
    ensures Distinct(a + b)
  {}

  lemma {:induction false} NothingTwice(st: ForestState, r: Registrator)
    requires Forest(st) && RegisteredOnce(st) && r in st
    ensures Distinct(SubscribersOf(st, r))
    decreases Elsewhere(st, r), |st[r].routers| + 1
  {
    NothingTwiceBelow(st, r, |st[r].routers|);
    var below := RouterSubscribersOf(st, r, |st[r].routers|);
    forall j | 0 <= j < |below| ensures below[j] !in st[r].subscribers {
      var n := ListedBelowHasOwner(st, r, |st[r].routers|, below[j]);
      if below[j] in st[r].subscribers {
        var i :| 0 <= i < |st[r].routers| && st[r].routers[i] in st[n].path;
        ChildPath(st, r, i);
      }
    }
    DistinctConcat(st[r].subscribers, below);
  }

  lemma {:induction false} NothingTwiceBelow(st: ForestState, r: Registrator, k: nat)
    requires Forest(st) && RegisteredOnce(st) && r in st && k <= |st[r].routers|
    ensures Distinct(RouterSubscribersOf(st, r, k))
    decreases Elsewhere(st, r), k
  {
    if k > 0 {
      ChildPath(st, r, k - 1);
      NothingTwiceBelow(st, r, k - 1);
      NothingTwice(st, st[r].routers[k - 1]);
      var before, last := RouterSubscribersOf(st, r, k - 1), SubscribersOf(st, st[r].routers[k - 1]);
      forall i, j | 0 <= i < |before| && 0 <= j < |last| ensures before[i] != last[j] {
        if before[i] == last[j] {
          var m := ListedBelowHasOwner(st, r, k - 1, before[i]);
          var n := ListedHasOwner(st, st[r].routers[k - 1], last[j]);
          SiblingsApart(st, r, n, k - 1);
        }
      }
      DistinctConcat(before, last);
    }
  }

  /** Only one router of `r` is on the way to any registrator. */
  lemma {:induction false} SiblingsApart(st: ForestState, r: Registrator, n: Registrator, k: nat)
    requires Forest(st) && r in st && n in st && k < |st[r].routers| && st[r].routers[k] in st[n].path
    ensures forall i :: 0 <= i < k ==> st[r].routers[i] !in st[n].path
  {
    ChildPath(st, r, k);
    assert PathOk(st, n) && RoutersOk(st, r);
    DepthInPath(st, n, st[r].routers[k]);
    forall i | 0 <= i < k ensures st[r].routers[i] !in st[n].path {
      ChildPath(st, r, i);
      if st[r].routers[i] in st[n].path {
        DepthInPath(st, n, st[r].routers[i]);
      }
    }
  }

  /** A subscriber is listed by exactly one root: that of the registrator it was registered on. */
  lemma {:induction false} ListedByItsRoot(st: ForestState, n: Registrator, s: Subscriber, root: Registrator)
    requires Forest(st) && RegisteredOnce(st) && n in st && s in st[n].subscribers
    requires root in st && st[root].parent == null
    ensures st[n].path != [] && (s in SubscribersOf(st, root) <==> root == st[n].path[0])
  {
    assert PathOk(st, n) && PathOk(st, root);
    OwnerDecides(st, n, s, root);
    if root in st[n].path {
      DepthInPath(st, n, root);
    }
  }

  /**
   * Moving a router takes its subscribers out of the lists above its old place and into
   * the lists above its new one; every other entry stays.
   */
  lemma {:induction false} MoveMovesSubscribers(
    st: ForestState, self: Registrator, router: Registrator, options: BrokerConfig, x: Registrator, s: Subscriber)
    requires Moves(st, self, router) && RegisteredOnce(st) && x in st && options.OnlyIncludeOptions()
    ensures var st' := Include(st, self, router, options);
            Forest(st') &&
            (s in SubscribersOf(st', x) <==>
               if s in SubscribersOf(st, router)
               then x in st[self].path || (router in st[x].path && s in SubscribersOf(st, x))
               else s in SubscribersOf(st, x))
  {
    var st' := Include(st, self, router, options);
    StillForest(st, self, router, options);
    if n :| n in st && s in st[n].subscribers {
      OwnerDecides(st, n, s, x);
      OwnerDecides(st, n, s, router);
      OwnerDecides(st', n, s, x);
      AncestorsAfterMove(st, self, router, options, x, n);
    } else {
      NoOwnerNoListing(st, s, x);
      NoOwnerNoListing(st, s, router);
      NoOwnerNoListing(st', s, x);
    }
  }

  lemma {:induction false} OwnerDecides(st: ForestState, n: Registrator, s: Subscriber, x: Registrator)
    requires Forest(st) && RegisteredOnce(st) && n in st && s in st[n].subscribers && x in st
    ensures s in SubscribersOf(st, x) <==> x in st[n].path
  {
    if s in SubscribersOf(st, x) {
      var m := ListedHasOwner(st, x, s);
    }
    if x in st[n].path {
      OwnedIsListed(st, x, n, s);
    }
  }

  lemma {:induction false} NoOwnerNoListing(st: ForestState, s: Subscriber, x: Registrator)
    requires Forest(st) && x in st && forall n :: n in st ==> s !in st[n].subscribers
    ensures s !in SubscribersOf(st, x)
  {
    if s in SubscribersOf(st, x) {
      var m := ListedHasOwner(st, x, s);
    }
  }

  lemma {:induction false} AncestorsAfterMove(
    st: ForestState, self: Registrator, router: Registrator, options: BrokerConfig, x: Registrator, n: Registrator)
    requires Moves(st, self, router) && x in st && n in st
    ensures x in Include(st, self, router, options)[n].path <==>
              if router in st[n].path then x in st[self].path || (router in st[x].path && x in st[n].path)
              else x in st[n].path
  {
    if router in st[n].path {
      BelowOnPath(st, router, x, n);
    }
  }

  lemma {:induction false} InSuffix<T>(s: seq<T>, k: nat, j: nat)
    requires k <= |s| && j < |s| && forall i :: 0 <= i < |s| && s[i] == s[j] ==> i == j
    ensures s[j] in s[k..] <==> k <= j
  {
    if k <= j {
      assert s[k..][j - k] == s[j];
    }
  }

  /** The part of a path from `router` on holds the path's members that are below it. */
  lemma {:induction false} BelowOnPath(st: ForestState, router: Registrator, x: Registrator, n: Registrator)
    requires Forest(st) && router in st && x in st && n in st && router in st[n].path
    ensures 0 < |st[router].path| <= |st[n].path|
    ensures x in st[n].path[|st[router].path| - 1..] <==> router in st[x].path && x in st[n].path
  {
    assert PathOk(st, n) && PathOk(st, x);
    DepthInPath(st, n, router);
    if x in st[n].path {
      DepthInPath(st, n, x);
      PathPosition(st, n, |st[x].path| - 1);
      InSuffix(st[n].path, |st[router].path| - 1, |st[x].path| - 1);
      if |st[router].path| <= |st[x].path| {
        assert st[x].path[|st[router].path| - 1] == router;
      }
      if router in st[x].path {
        DepthInPath(st, x, router);
      }
    }
  }

  /** No registrator is on a path twice. */
  lemma {:induction false} PathPosition(st: ForestState, n: Registrator, j: nat)
    requires n in st && PathOk(st, n) && j < |st[n].path|
    ensures forall i :: 0 <= i < |st[n].path| && st[n].path[i] == st[n].path[j] ==> i == j
  {
    forall i | 0 <= i < |st[n].path| && st[n].path[i] == st[n].path[j] ensures i == j {
      assert |st[st[n].path[i]].path| == i + 1;
    }
  }

  lemma {:induction false} StillOnce(st: ForestState, r: Registrator, s: Subscriber)
    requires RegisteredOnce(st) && r in st && forall n :: n in st && n != r ==> s !in st[n].subscribers
    ensures RegisteredOnce(Register(st, r, s)) && s in Register(st, r, s)[r].subscribers
  {
  }

  /** A new subscriber comes into the lists of its registrator and of everything above it, and into no other. */
  lemma {:induction false} RegisterLists(
    st: ForestState, r: Registrator, s: Subscriber, x: Registrator, t: Subscriber)
    requires Forest(st) && RegisteredOnce(st) && r in st && x in st
    requires forall n :: n in st && n != r ==> s !in st[n].subscribers
    ensures var st' := Register(st, r, s);
            Forest(st') && RegisteredOnce(st') &&
            (t in SubscribersOf(st', x) <==> t in SubscribersOf(st, x) || (t == s && x in st[r].path))
  {
    var st' := Register(st, r, s);
    StillForestRegister(st, r, s);
    StillOnce(st, r, s);
    if n :| n in st && t in st[n].subscribers {
      OwnerDecides(st, n, t, x);
      OwnerDecides(st', n, t, x);
    } else {
      NoOwnerNoListing(st, t, x);
      if t == s {
        OwnerDecides(st', r, s, x);
      } else {
        NoOwnerNoListing(st', t, x);
      }
    }
  }

  // ----- the order of the list -----

  /** The part of the tree below `c` holds the same routers and subscribers in both states. */
  ghost predicate SameBelow(st: ForestState, st': ForestState, c: Registrator) {
    Forest(st) && Forest(st') && c in st && st.Keys == st'.Keys &&
    forall n :: n in st && c in st[n].path ==>
      st'[n].routers == st[n].routers && st'[n].subscribers == st[n].subscribers
  }

  lemma {:induction false} SameBelowChild(st: ForestState, st': ForestState, c: Registrator, i: nat)
    requires SameBelow(st, st', c) && i < |st[c].routers|
    ensures SameBelow(st, st', st[c].routers[i]) && Elsewhere(st, st[c].routers[i]) < Elsewhere(st, c)
    ensures st'[c].routers == st[c].routers && st'[c].subscribers == st[c].subscribers
  {
    var d := st[c].routers[i];
    ChildPath(st, c, i);
    assert PathOk(st, c);
    forall n | n in st && d in st[n].path ensures c in st[n].path {
      assert PathOk(st, n);
      DepthInPath(st, n, d);
      assert st[d].path[|st[c].path| - 1] == c;
      assert st[n].path[|st[c].path| - 1] == st[d].path[|st[c].path| - 1];
    }
  }

  lemma {:induction false} SameList(st: ForestState, st': ForestState, c: Registrator)
    requires SameBelow(st, st', c)
    ensures SubscribersOf(st', c) == SubscribersOf(st, c)
    decreases Elsewhere(st, c), |st[c].routers| + 1
  {
    assert PathOk(st, c);
    SameRouterLists(st, st', c, |st[c].routers|);
  }

  lemma {:induction false} SameRouterLists(st: ForestState, st': ForestState, c: Registrator, k: nat)
    requires SameBelow(st, st', c) && k <= |st[c].routers|
    ensures k <= |st'[c].routers| && RouterSubscribersOf(st', c, k) == RouterSubscribersOf(st, c, k)
    decreases Elsewhere(st, c), k
  {
    assert PathOk(st, c);
    if k > 0 {
      SameBelowChild(st, st', c, k - 1);
      SameRouterLists(st, st', c, k - 1);
      SameList(st, st', st[c].routers[k - 1]);
    }
  }

  lemma {:induction false} OutsideBoth(
    st: ForestState, self: Registrator, router: Registrator, c: Registrator, n: Registrator)
    requires Moves(st, self, router) && c in st && self !in st[router].path
    requires c == router || st[c].parent == self
    requires n in st && c in st[n].path
    ensures n != self && n != st[router].parent
  {
    assert PathOk(st, c) && PathOk(st, router) && PathOk(st, self);
    DepthInside(st, n, c);
    assert c != router ==> st[c].path[|st[self].path| - 1] == self;
  }

  lemma {:induction false} SameNode(
    st: ForestState, self: Registrator, router: Registrator, options: BrokerConfig, n: Registrator)
    requires self in st && router in st && n in st && n != self && n != st[router].parent
    ensures var st' := Include(st, self, router, options);
            st'[n].routers == st[n].routers && st'[n].subscribers == st[n].subscribers
  {
  }

  /** Neither the router's own subtree nor one of the receiver's other routers changes inside. */
  lemma {:induction false} UntouchedBelow(
    st: ForestState, self: Registrator, router: Registrator, options: BrokerConfig, c: Registrator)
    requires Moves(st, self, router) && options.OnlyIncludeOptions() && c in st && self !in st[router].path
    requires c == router || st[c].parent == self
    ensures SameBelow(st, Include(st, self, router, options), c)
  {
    var st' := Include(st, self, router, options);
    StillForest(st, self, router, options);
    forall n | n in st && c in st[n].path
      ensures st'[n].routers == st[n].routers && st'[n].subscribers == st[n].subscribers
    {
      OutsideBoth(st, self, router, c, n);
      SameNode(st, self, router, options, n);
    }
  }

  lemma {:induction false} DepthInside(st: ForestState, n: Registrator, c: Registrator)
    requires Forest(st) && n in st && c in st[n].path
    ensures c in st && 0 < |st[c].path| <= |st[n].path| && st[c].path <= st[n].path
    ensures forall x :: x in st[c].path ==> x in st[n].path
  {
    assert PathOk(st, n);
    DepthInPath(st, n, c);
  }

  /** A router that comes from elsewhere is listed last: the receiver's list goes on with the router's. */
  lemma {:induction false} AttachedLast(
    st: ForestState, self: Registrator, router: Registrator, options: BrokerConfig)
    requires Moves(st, self, router) && options.OnlyIncludeOptions() && self !in st[router].path
    ensures var st' := Include(st, self, router, options);
            Forest(st') && SubscribersOf(st', self) == SubscribersOf(st, self) + SubscribersOf(st, router)
  {
    var st' := Include(st, self, router, options);
    StillForest(st, self, router, options);
    var k := |st[self].routers|;
    assert st'[self].routers == st[self].routers + [router];
    for i := 0 to k
      invariant RouterSubscribersOf(st', self, i) == RouterSubscribersOf(st, self, i)
    {
      ChildPath(st, self, i);
      UntouchedBelow(st, self, router, options, st[self].routers[i]);
      SameList(st, st', st[self].routers[i]);
    }
    UntouchedBelow(st, self, router, options, router);
    SameList(st, st', router);
  }

  // ----- runs -----

  datatype Step =
    | NewRegistrator(r: Registrator)
    | NewSubscriber(r: Registrator, s: Subscriber)
    | IncludeRouter(self: Registrator, router: Registrator, options: BrokerConfig)

  /** A program's registrators are distinct, so are its subscribers, and no router goes below itself. */
  ghost predicate Enabled(st: ForestState, step: Step) {
    match step
    case NewRegistrator(r) => Unused(st, r)
    case NewSubscriber(r, s) => r in st && forall n :: n in st ==> s !in st[n].subscribers
    case IncludeRouter(self, router, options) =>
      self in st && router in st && router !in st[self].path && options.OnlyIncludeOptions()
  }

  ghost function Do(st: ForestState, step: Step): ForestState
    requires Enabled(st, step)
  {
    match step
    case NewRegistrator(r) => Create(st, r)
    case NewSubscriber(r, s) => Register(st, r, s)
    case IncludeRouter(self, router, options) => Include(st, self, router, options)
  }

  ghost predicate RunFrom(st: ForestState, steps: seq<Step>)
    decreases |steps|
  {
    steps == [] || (Enabled(st, steps[0]) && RunFrom(Do(st, steps[0]), steps[1..]))
  }

  ghost function After(st: ForestState, steps: seq<Step>): ForestState
    requires RunFrom(st, steps)
    decreases |steps|
  {
    if steps == [] then st else After(Do(st, steps[0]), steps[1..])
  }

  /** Every run of a program leaves a forest, each subscriber registered once. */
  lemma {:induction false} RunsKeepTheForest(st: ForestState, steps: seq<Step>)
    requires Forest(st) && RegisteredOnce(st) && RunFrom(st, steps)
    ensures Forest(After(st, steps)) && RegisteredOnce(After(st, steps))
    decreases |steps|
  {
    if steps != [] {
      match steps[0] {
        case NewRegistrator(r) => StillForestCreate(st, r);
        case NewSubscriber(r, s) => StillForestRegister(st, r, s);
        case IncludeRouter(self, router, options) => StillForest(st, self, router, options);
      }
      RunsKeepTheForest(Do(st, steps[0]), steps[1..]);
    }
  }

  lemma {:induction false} ProgramsStartEmpty(steps: seq<Step>)
    requires RunFrom(map[], steps)
    ensures Forest(After(map[], steps)) && RegisteredOnce(After(map[], steps))
  {
    RunsKeepTheForest(map[], steps);
  }

  // ----- the call that the code does not check -----

  /** The same program state, whatever path is written beside each registrator. */
  ghost predicate SameLinks(st: ForestState, t: ForestState) {
    st.Keys == t.Keys && forall n :: n in st ==> t[n] == st[n].(path := t[n].path)
  }

  /** Below `router`, depths still count up from it when only the router's own parent changed. */
  lemma {:induction false} DepthBelow(st: ForestState, t: ForestState, router: Registrator, m: Registrator)
    requires Forest(st) && Forest(t) && st.Keys == t.Keys && m in st && router in st[m].path
    requires forall n :: n in st && n != router ==> t[n].parent == st[n].parent
    ensures router in st && |t[m].path| - |t[router].path| == |st[m].path| - |st[router].path|
    decreases |st[m].path|
  {
    assert PathOk(st, m) && PathOk(t, m);
    DepthInPath(st, m, router);
    if m != router {
      var q := st[m].parent;
      assert PathOk(st, q) && PathOk(t, q);
      assert st[m].path[|st[router].path| - 1] == router;
      DepthBelow(st, t, router, q);
    }
  }

  /** A new inclusion leaves a forest exactly when the router does not go below itself. */
  lemma {:induction false} ForestIff(st: ForestState, self: Registrator, router: Registrator, options: BrokerConfig)
    requires Forest(st) && self in st && router in st && st[router].parent != self && options.OnlyIncludeOptions()
    ensures (exists t :: SameLinks(Include(st, self, router, options), t) && Forest(t)) <==> router !in st[self].path
  {
    var st' := Include(st, self, router, options);
    if router !in st[self].path {
      StillForest(st, self, router, options);
      assert SameLinks(st', st');
    } else {
      forall t | SameLinks(st', t) ensures !Forest(t) {
        if Forest(t) {
          DepthBelow(st, t, router, self);
          assert PathOk(t, router) && PathOk(st, self);
          DepthInPath(st, self, router);
        }
      }
    }
  }
}
