/** Per-message keys of a Kafka batch, and the publish command that keeps them by their bodies. */
module KafkaKeys {
  import opened Wrappers

  type Key = string
  type Keys = seq<Option<Key>>

  /** A member of a batch: Python's `None`, a plain body, or a Response around a body. */
  datatype Value = NoBody | Data(payload: string) | Response(body: Value, key: Option<Key>)
  {
    function Body(): Value {
      if Response? then body else this
    }

    function PublishKey(): Option<Key> {
      if Response? then key else None
    }
  }

  type Batch = seq<Value>

  datatype Fault = MissingBody | IndexOutOfRange

  // ----- extracting keys -----

  function Bodies(batch: Batch): Batch {
    seq(|batch|, i requires 0 <= i < |batch| => batch[i].Body())
  }

  function PublishKeys(batch: Batch): Keys {
    seq(|batch|, i requires 0 <= i < |batch| => batch[i].PublishKey())
  }

  ghost predicate HasKey(batch: Batch) {
    exists i :: 0 <= i < |batch| && batch[i].PublishKey().Some?
  }

  method ExtractPerMessageKeysAndBodies(batch: Batch) returns (keys: Keys, normalized: Option<Batch>)
    ensures HasKey(batch) ==> keys == PublishKeys(batch) && normalized == Some(Bodies(batch))
    ensures !HasKey(batch) ==> keys == [] && normalized == None
  {
    if batch == [] {
      return [], None;
    }
    var bodies := [];
    keys := [];
    var hasKey := false;
    for i := 0 to |batch|
      invariant bodies == Bodies(batch[..i]) && keys == PublishKeys(batch[..i])
      invariant hasKey <==> HasKey(batch[..i])
    {
      assert batch[..i + 1] == batch[..i] + [batch[i]];
      assert HasKey(batch[..i + 1]) <==> HasKey(batch[..i]) || batch[i].PublishKey().Some? by {
        assert batch[..i + 1][i] == batch[i];
        assert forall j :: 0 <= j < i ==> batch[..i + 1][j] == batch[..i][j];
      }
      bodies := bodies + [batch[i].Body()];
      keys := keys + [batch[i].PublishKey()];
      if batch[i].PublishKey().Some? {
        hasKey := true;
      }
    }
    assert batch[..|batch|] == batch;
    if !hasKey {
      return [], None;
    }
    normalized := Some(bodies);
  }

  /** Some message comes with a key. */
  ghost predicate Keyful(batch: Batch) {
    exists i :: 0 <= i < |batch| && batch[i].Response? && batch[i].key.Some?
  }

  lemma {:induction false} KeysAndBodies(batch: Batch)
    ensures HasKey(batch) <==> Keyful(batch)
    ensures forall i :: 0 <= i < |batch| ==>
      PublishKeys(batch)[i] == (if batch[i].Response? then batch[i].key else None) &&
      Bodies(batch)[i] == if batch[i].Response? then batch[i].body else batch[i]
  {
    if i :| 0 <= i < |batch| && batch[i].PublishKey().Some? {
      assert batch[i].Response? && batch[i].key.Some?;
    }
    if i :| 0 <= i < |batch| && batch[i].Response? && batch[i].key.Some? {
      assert batch[i].PublishKey().Some?;
    }
  }

  function KeyForIndex(keys: Keys, default: Option<Key>, index: int): Option<Key> {
    if index < 0 || index >= |keys| || keys[index].None? then default else keys[index]
  }

  // ----- which body is which -----

  /** How many of the first `n` members equal `b`. */
  function Count(s: Batch, n: nat, b: Value): nat
    requires n <= |s|
  {
    if n == 0 then 0 else Count(s, n - 1, b) + if s[n - 1] == b then 1 else 0
  }

  function Occurs(s: Batch, b: Value): nat {
    Count(s, |s|, b)
  }

  lemma {:induction false} CountIsMultiplicity(s: Batch, n: nat, b: Value)
    requires n <= |s|
    ensures Count(s, n, b) == multiset(s[..n])[b]
  {
    if n > 0 {
      CountIsMultiplicity(s, n - 1, b);
      assert s[..n] == s[..n - 1] + [s[n - 1]];
    }
  }

  /** Sub-multisets are told by counting. */
  lemma {:induction false} SubMultisetIff(next: Batch, cur: Batch)
    ensures multiset(next) <= multiset(cur) <==> forall b :: Occurs(next, b) <= Occurs(cur, b)
  {
    forall b ensures Occurs(next, b) == multiset(next)[b] && Occurs(cur, b) == multiset(cur)[b] {
      CountIsMultiplicity(next, |next|, b);
      CountIsMultiplicity(cur, |cur|, b);
      assert next[..|next|] == next && cur[..|cur|] == cur;
    }
  }

  lemma {:induction false} CountGrows(s: Batch, i: nat, j: nat, b: Value)
    requires i <= j <= |s|
    ensures Count(s, i, b) <= Count(s, j, b)
    ensures i < j && s[i] == b ==> Count(s, i, b) < Count(s, j, b)
    decreases j
  {
    if i < j {
      CountGrows(s, i, j - 1, b);
    }
  }

  /** How many members equal to `s[i]` stand before it. */
  function Rank(s: Batch, i: nat): nat
    requires i < |s|
  {
    Count(s, i, s[i])
  }

  /** Each member of `next` comes from the equally ranked member of `cur` with the same body. */
  ghost predicate Matching(cur: Batch, next: Batch, slots: seq<nat>) {
    |slots| == |next| &&
    forall i :: 0 <= i < |next| ==> slots[i] < |cur| && cur[slots[i]] == next[i] && Rank(cur, slots[i]) == Rank(next, i)
  }

  /** Among the first `n` members, the position of the one of rank `k` that equals `b`. */
  function Position(s: Batch, n: nat, b: Value, k: nat): (p: nat)
    requires n <= |s| && k < Count(s, n, b)
    ensures p < n && s[p] == b && Rank(s, p) == k
  {
    if s[n - 1] == b && k == Count(s, n - 1, b) then n - 1 else Position(s, n - 1, b, k)
  }

  function Nth(s: Batch, b: Value, k: nat): (p: nat)
    requires k < Occurs(s, b)
    ensures p < |s| && s[p] == b && Rank(s, p) == k
  {
    Position(s, |s|, b, k)
  }

  lemma {:induction false} RankInjective(s: Batch, i: nat, j: nat)
    requires i < |s| && j < |s| && s[i] == s[j] && Rank(s, i) == Rank(s, j)
    ensures i == j
  {
    if i < j {
      CountGrows(s, i, j, s[i]);
    } else if j < i {
      CountGrows(s, j, i, s[i]);
    }
  }

  lemma {:induction false} RankBelowCount(s: Batch, i: nat)
    requires i < |s|
    ensures Rank(s, i) < Occurs(s, s[i])
  {
    CountGrows(s, i, |s|, s[i]);
  }

  function Slots(cur: Batch, next: Batch): (slots: seq<nat>)
    requires forall b :: Occurs(next, b) <= Occurs(cur, b)
    ensures Matching(cur, next, slots)
  {
    seq(|next|, i requires 0 <= i < |next| =>
      RankBelowCount(next, i);
      Nth(cur, next[i], Rank(next, i)))
  }

  lemma {:induction false} MatchedOccurs(cur: Batch, next: Batch, slots: seq<nat>, b: Value)
    requires Matching(cur, next, slots)
    ensures Occurs(next, b) <= Occurs(cur, b)
  {
    if Occurs(next, b) > 0 {
      RankBelowCount(cur, slots[Nth(next, b, Occurs(next, b) - 1)]);
    }
  }

  /** A matching exists exactly when `next` is a sub-multiset of `cur`. */
  lemma {:induction false} MatchingIff(cur: Batch, next: Batch)
    ensures (exists slots :: Matching(cur, next, slots)) <==> multiset(next) <= multiset(cur)
  {
    SubMultisetIff(next, cur);
    if multiset(next) <= multiset(cur) {
      assert Matching(cur, next, Slots(cur, next));
    }
    if slots :| Matching(cur, next, slots) {
      forall b ensures Occurs(next, b) <= Occurs(cur, b) {
        MatchedOccurs(cur, next, slots, b);
      }
    }
  }

  lemma {:induction false} NthZeroIsFirst(s: Batch, b: Value)
    requires Occurs(s, b) > 0
    ensures forall q :: 0 <= q < Nth(s, b, 0) ==> s[q] != b
  {
    forall q | 0 <= q < Nth(s, b, 0) ensures s[q] != b {
      CountGrows(s, q, Nth(s, b, 0), b);
    }
  }

  lemma {:induction false} OccursIff(s: Batch, b: Value)
    ensures Occurs(s, b) > 0 <==> b in s
  {
    if b in s {
      var i :| 0 <= i < |s| && s[i] == b;
      RankBelowCount(s, i);
    }
    if Occurs(s, b) > 0 {
      assert s[Nth(s, b, 0)] == b;
    }
  }

  /** There is only one matching, and it never uses a member of `cur` twice. */
  lemma {:induction false} MatchingUnique(cur: Batch, next: Batch, s: seq<nat>, t: seq<nat>)
    requires Matching(cur, next, s) && Matching(cur, next, t)
    ensures s == t
    ensures forall i, j :: 0 <= i < j < |s| ==> s[i] != s[j]
  {
    forall i | 0 <= i < |next| ensures s[i] == t[i] {
      RankInjective(cur, s[i], t[i]);
    }
    forall i, j | 0 <= i < j < |next| ensures s[i] != s[j] {
      if s[i] == s[j] {
        RankInjective(next, i, j);
      }
    }
  }

  // ----- realigning keys with a rewritten batch -----

  /** The rank `next[i]` asks for; a `None` always asks for the first one. */
  function AskedRank(next: Batch, i: nat): nat
    requires i < |next|
  {
    if next[i].NoBody? then 0 else Rank(next, i)
  }

  /** Whether each of the first `n` members of `next` finds a member of `cur` to claim. */
  ghost predicate Fits(cur: Batch, next: Batch, n: nat)
    requires n <= |next|
  {
    forall i :: 0 <= i < n ==> AskedRank(next, i) < Occurs(cur, next[i])
  }

  function Claim(cur: Batch, next: Batch, i: nat): nat
    requires i < |next| && AskedRank(next, i) < Occurs(cur, next[i])
  {
    Nth(cur, next[i], AskedRank(next, i))
  }

  function Extended(order: seq<nat>, p: nat): seq<nat> {
    if p in order then order else order + [p]
  }

  /** The keys of `bodies_seen`, in insertion order, once `n` members of `next` are entered. */
  ghost function SeenOrder(cur: Batch, next: Batch, n: nat): (order: seq<nat>)
    requires n <= |next| && Fits(cur, next, n)
    ensures forall p :: p in order ==> p < |cur|
  {
    if n == 0 then [] else Extended(SeenOrder(cur, next, n - 1), Claim(cur, next, n - 1))
  }

  function Pick(keys: Keys, order: seq<nat>): Keys
    requires forall p :: p in order ==> p < |keys|
  {
    seq(|order|, i requires 0 <= i < |order| => assert order[i] in order; keys[order[i]])
  }

  /** How many members equal to `b` the first `n` members of `next` have claimed. */
  function Claimed(next: Batch, n: nat, b: Value): nat
    requires n <= |next|
  {
    if b.NoBody? && Count(next, n, b) > 0 then 1 else Count(next, n, b)
  }

  ghost predicate Taken(cur: Batch, next: Batch, n: nat, p: nat)
    requires n <= |next|
  {
    p < |cur| && Rank(cur, p) < Claimed(next, n, cur[p])
  }

  lemma {:induction false} TakenStep(cur: Batch, next: Batch, n: nat)
    requires n < |next| && AskedRank(next, n) < Occurs(cur, next[n])
    ensures forall q: nat :: Taken(cur, next, n + 1, q) <==> Taken(cur, next, n, q) || q == Claim(cur, next, n)
  {
    forall q: nat ensures Taken(cur, next, n + 1, q) <==> Taken(cur, next, n, q) || q == Claim(cur, next, n) {
      if q < |cur| && cur[q] == next[n] && Rank(cur, q) == AskedRank(next, n) {
        RankInjective(cur, q, Claim(cur, next, n));
      }
    }
  }

  /** What the loop has entered in `bodies_seen` after `n` members. */
  ghost predicate Tracks(cur: Batch, next: Batch, n: nat, order: seq<nat>, seen: map<nat, Value>)
    requires n <= |next|
  {
    Fits(cur, next, n) && order == SeenOrder(cur, next, n) &&
    (forall p: nat :: p in seen <==> p in order) &&
    (forall p: nat :: p in seen ==> seen[p] == cur[p])
  }

  lemma {:induction false} TracksStep(cur: Batch, next: Batch, n: nat, order: seq<nat>, seen: map<nat, Value>)
    requires n < |next| && Tracks(cur, next, n, order, seen) && AskedRank(next, n) < Occurs(cur, next[n])
    ensures var p := Claim(cur, next, n);
            Tracks(cur, next, n + 1, if p in seen then order else order + [p], seen[p := next[n]])
  {
    assert Fits(cur, next, n + 1);
    assert SeenOrder(cur, next, n + 1) == Extended(order, Claim(cur, next, n));
  }

  /** The first member equal to `next[n]` that is not yet seen is the one to claim. */
  lemma {:induction false} FirstFree(cur: Batch, next: Batch, n: nat, order: seq<nat>, seen: map<nat, Value>, p: nat)
    requires n < |next| && Tracks(cur, next, n, order, seen) && p < |cur| && cur[p] == next[n]
    requires p !in seen || next[n] == NoBody
    requires forall q: nat :: q < p && cur[q] == next[n] ==> q in seen && next[n] != NoBody
    ensures AskedRank(next, n) < Occurs(cur, next[n]) && p == Claim(cur, next, n)
  {
    RankBelowCount(cur, p);
    if next[n] == NoBody {
      NthZeroIsFirst(cur, next[n]);
    } else {
      SeenOrderMembers(cur, next, n);
      assert !Taken(cur, next, n, p);
      var first := Claim(cur, next, n);
      assert !Taken(cur, next, n, first);
      if p < first {
        CountGrows(cur, p, first, next[n]);
      }
    }
  }

  lemma {:induction false} NoneFree(cur: Batch, next: Batch, n: nat, order: seq<nat>, seen: map<nat, Value>)
    requires n < |next| && Tracks(cur, next, n, order, seen) && next[n] != NoBody
    requires forall q: nat :: q < |cur| && cur[q] == next[n] ==> q in seen
    ensures AskedRank(next, n) >= Occurs(cur, next[n])
  {
    SeenOrderMembers(cur, next, n);
    if AskedRank(next, n) < Occurs(cur, next[n]) {
      var first := Claim(cur, next, n);
    }
  }

  /** The inner loop: the next unseen position of `body`, or the end, where Python raises IndexError. */
  method SkipSeen(bodiesSeen: map<nat, Value>, currentBodies: Batch, body: Value, start: nat) returns (index: nat)
    requires start < |currentBodies|
    ensures start <= index <= |currentBodies|
    ensures forall q: nat :: start <= q < index && currentBodies[q] == body ==> q in bodiesSeen
    ensures index < |currentBodies| ==>
      currentBodies[index] == body && (index !in bodiesSeen || bodiesSeen[index] == NoBody)
  {
    index := start;
    while (index in bodiesSeen && bodiesSeen[index] != NoBody) || currentBodies[index] != body
      invariant start <= index < |currentBodies|
      invariant forall q: nat :: start <= q < index && currentBodies[q] == body ==> q in bodiesSeen
      decreases |currentBodies| - index
    {
      index := index + 1;
      if index == |currentBodies| {
        return;
      }
    }
  }

  method RealignKeys(keys: Keys, currentBodies: Batch, nextBodies: Batch) returns (r: Result<Keys, Fault>)
    ensures r.Ok? <==> Realignable(keys, currentBodies, nextBodies)
    ensures r.Ok? ==> r.value == Realigned(keys, currentBodies, nextBodies)
    ensures r.Err? ==> exists f: nat :: f <= |nextBodies| && FaultAt(currentBodies, nextBodies, f, r.error)
  {
    var order: seq<nat> := [];
    var bodiesSeen: map<nat, Value> := map[];
    for i := 0 to |nextBodies|
      invariant Tracks(currentBodies, nextBodies, i, order, bodiesSeen)
    {
      var body := nextBodies[i];
      OccursIff(currentBodies, body);
      if body !in currentBodies {
        assert FaultAt(currentBodies, nextBodies, i, MissingBody);
        return Err(MissingBody);
      }
      var index: nat := Nth(currentBodies, body, 0);
      NthZeroIsFirst(currentBodies, body);
      if index in bodiesSeen && bodiesSeen[index] != NoBody {
        index := SkipSeen(bodiesSeen, currentBodies, body, index);
        if index == |currentBodies| {
          NoneFree(currentBodies, nextBodies, i, order, bodiesSeen);
          assert FaultAt(currentBodies, nextBodies, i, IndexOutOfRange);
          return Err(IndexOutOfRange);
        }
      }
      FirstFree(currentBodies, nextBodies, i, order, bodiesSeen, index);
      TracksStep(currentBodies, nextBodies, i, order, bodiesSeen);
      if index !in bodiesSeen {
        order := order + [index];
      }
      bodiesSeen := bodiesSeen[index := body];
    }
    if !(forall p :: p in order ==> p < |keys|) {
      assert FaultAt(currentBodies, nextBodies, |nextBodies|, IndexOutOfRange);
      return Err(IndexOutOfRange);
    }
    return Ok(Pick(keys, order));
  }

  /** The first member that cannot be entered, and what the loop raises there; at the end, a key is missing. */
  ghost predicate FaultAt(cur: Batch, next: Batch, f: nat, fault: Fault)
    requires f <= |next|
  {
    Fits(cur, next, f) && (f < |next| ==> !Fits(cur, next, f + 1)) &&
    fault == if f < |next| && next[f] !in cur then MissingBody else IndexOutOfRange
  }

  ghost predicate Realignable(keys: Keys, cur: Batch, next: Batch) {
    Fits(cur, next, |next|) && forall p :: p in SeenOrder(cur, next, |next|) ==> p < |keys|
  }

  ghost function Realigned(keys: Keys, cur: Batch, next: Batch): Keys
    requires Realignable(keys, cur, next)
  {
    Pick(keys, SeenOrder(cur, next, |next|))
  }

  // ----- which key each body ends up with -----

  lemma {:induction false} SeenOrderMembers(cur: Batch, next: Batch, n: nat)
    requires n <= |next| && Fits(cur, next, n)
    ensures forall p: nat :: p in SeenOrder(cur, next, n) <==> Taken(cur, next, n, p)
  {
    if n > 0 {
      SeenOrderMembers(cur, next, n - 1);
      TakenStep(cur, next, n - 1);
    }
  }

  predicate RepeatsNone(s: Batch, n: nat)
    requires n < |s|
  {
    s[n] == NoBody && Count(s, n, NoBody) > 0
  }

  /** A member claims a fresh position exactly when it does not repeat `None`. */
  lemma {:induction false} ClaimIsFreshIff(cur: Batch, next: Batch, n: nat)
    requires n < |next| && Fits(cur, next, n + 1)
    ensures Claim(cur, next, n) !in SeenOrder(cur, next, n) <==> !RepeatsNone(next, n)
  {
    SeenOrderMembers(cur, next, n);
  }

  lemma {:induction false} SeenOrderStep(cur: Batch, next: Batch, n: nat)
    requires 0 < n <= |next| && Fits(cur, next, n)
    ensures var order := SeenOrder(cur, next, n - 1);
      SeenOrder(cur, next, n) == if RepeatsNone(next, n - 1) then order else order + [Claim(cur, next, n - 1)]
  {
    ClaimIsFreshIff(cur, next, n - 1);
  }

  /** The first `n` members without the `None`s that repeat: what gets a key. */
  function OneNone(s: Batch, n: nat): Batch
    requires n <= |s|
  {
    if n == 0 then [] else OneNone(s, n - 1) + if RepeatsNone(s, n - 1) then [] else [s[n - 1]]
  }

  lemma {:induction false} CountPrefix(s: Batch, t: Batch, n: nat, b: Value)
    requires n <= |s|
    ensures Count(s + t, n, b) == Count(s, n, b)
  {
    if n > 0 {
      CountPrefix(s, t, n - 1, b);
    }
  }

  lemma {:induction false} OneNoneCounts(s: Batch, n: nat, b: Value)
    requires n <= |s|
    ensures Occurs(OneNone(s, n), b) == if b == NoBody && Count(s, n, NoBody) > 0 then 1 else Count(s, n, b)
  {
    if n > 0 {
      OneNoneCounts(s, n - 1, b);
      if RepeatsNone(s, n - 1) {
        assert OneNone(s, n) == OneNone(s, n - 1);
      } else {
        CountPrefix(OneNone(s, n - 1), [s[n - 1]], |OneNone(s, n - 1)|, b);
      }
    }
  }

  lemma {:induction false} RankBefore(next: Batch, b: Value, i: nat)
    requires i < |next|
    ensures (next + [b])[i] == next[i] && Rank(next + [b], i) == Rank(next, i)
  {
    CountPrefix(next, [b], i, next[i]);
  }

  lemma {:induction false} RankLast(next: Batch, b: Value)
    ensures (next + [b])[|next|] == b && Rank(next + [b], |next|) == Occurs(next, b)
  {
    CountPrefix(next, [b], |next|, b);
  }

  /** A further member, matched with a member of the same rank. */
  lemma {:induction false} MatchingExtends(cur: Batch, next: Batch, slots: seq<nat>, b: Value, p: nat)
    requires Matching(cur, next, slots) && p < |cur| && cur[p] == b && Rank(cur, p) == Occurs(next, b)
    ensures Matching(cur, next + [b], slots + [p])
  {
    forall i | 0 <= i < |next| + 1
      ensures (slots + [p])[i] < |cur| && cur[(slots + [p])[i]] == (next + [b])[i]
      ensures Rank(cur, (slots + [p])[i]) == Rank(next + [b], i)
    {
      if i < |next| {
        RankBefore(next, b, i);
      } else {
        RankLast(next, b);
      }
    }
  }

  lemma {:induction false} ClaimRank(cur: Batch, next: Batch, n: nat)
    requires n < |next| && Fits(cur, next, n + 1) && !RepeatsNone(next, n)
    ensures Rank(cur, Claim(cur, next, n)) == Occurs(OneNone(next, n), next[n])
  {
    OneNoneCounts(next, n, next[n]);
  }

  lemma {:induction false} MatchingGrows(
    cur: Batch, one: Batch, order: seq<nat>, b: Value, p: nat, repeats: bool, one': Batch, order': seq<nat>)
    requires Matching(cur, one, order)
    requires one' == if repeats then one else one + [b]
    requires order' == if repeats then order else order + [p]
    requires !repeats ==> p < |cur| && cur[p] == b && Rank(cur, p) == Occurs(one, b)
    ensures Matching(cur, one', order')
  {
    if !repeats {
      MatchingExtends(cur, one, order, b, p);
    }
  }

  /** The positions seen match the members that get keys, whatever batch is set. */
  lemma {:induction false} SeenMatches(cur: Batch, next: Batch, n: nat)
    requires n <= |next| && Fits(cur, next, n)
    ensures Matching(cur, OneNone(next, n), SeenOrder(cur, next, n))
  {
    if n == 0 {
      MatchingNothing(cur);
    } else {
      var one, order, b, p := OneNone(next, n - 1), SeenOrder(cur, next, n - 1), next[n - 1], Claim(cur, next, n - 1);
      var repeats := RepeatsNone(next, n - 1);
      SeenMatches(cur, next, n - 1);
      if !repeats {
        ClaimRank(cur, next, n - 1);
      }
      SeenOrderStep(cur, next, n);
      OneNoneStep(next, n);
      MatchingGrows(cur, one, order, b, p, repeats, OneNone(next, n), SeenOrder(cur, next, n));
    }
  }

  lemma {:induction false} OneNoneStep(s: Batch, n: nat)
    requires 0 < n <= |s|
    ensures OneNone(s, n) == if RepeatsNone(s, n - 1) then OneNone(s, n - 1) else OneNone(s, n - 1) + [s[n - 1]]
  {
  }

  lemma {:induction false} MatchingNothing(cur: Batch)
    ensures Matching(cur, [], [])
  {
  }

  lemma {:induction false} LastTaken(s: Batch, n: nat)
    requires 0 < n <= |s|
    ensures s[..n] == s[..n - 1] + [s[n - 1]]
  {
  }

  lemma {:induction false} NoNoneRepeats(s: Batch, n: nat)
    requires n <= |s| && Occurs(s, NoBody) <= 1
    ensures OneNone(s, n) == s[..n]
  {
    if n > 0 {
      NoNoneRepeats(s, n - 1);
      CountGrows(s, n, |s|, NoBody);
      assert !RepeatsNone(s, n - 1);
      LastTaken(s, n);
    }
  }

  lemma {:induction false} OneNoneLength(s: Batch, n: nat)
    requires n <= |s|
    ensures |OneNone(s, n)| <= n && (|OneNone(s, n)| == n <==> Count(s, n, NoBody) <= 1)
  {
    if n > 0 {
      OneNoneLength(s, n - 1);
    }
  }

  /** Every key follows its body exactly for new batches with at most one `None`. */
  lemma {:induction false} KeysFollowIff(cur: Batch, next: Batch)
    requires Fits(cur, next, |next|)
    ensures Matching(cur, next, SeenOrder(cur, next, |next|)) <==> Occurs(next, NoBody) <= 1
  {
    SeenMatches(cur, next, |next|);
    OneNoneLength(next, |next|);
    if Occurs(next, NoBody) <= 1 {
      NoNoneRepeats(next, |next|);
      assert next[..|next|] == next;
    }
  }

  lemma {:induction false} SeenOrderAt(cur: Batch, next: Batch, i: nat)
    requires i < |next| && Fits(cur, next, |next|) && Occurs(next, NoBody) <= 1
    ensures |SeenOrder(cur, next, |next|)| == |next| && AskedRank(next, i) == Rank(next, i)
    ensures SeenOrder(cur, next, |next|)[i] == Claim(cur, next, i)
  {
    KeysFollowIff(cur, next);
    CountGrows(next, i, |next|, NoBody);
    RankInjective(cur, SeenOrder(cur, next, |next|)[i], Claim(cur, next, i));
  }

  ghost predicate Rewrites(cur: Batch, next: Batch) {
    Occurs(next, NoBody) <= 1 && multiset(next) <= multiset(cur)
  }

  /** Such a batch is accepted exactly when it is a sub-multiset of the current one. */
  lemma {:induction false} AcceptedIff(keys: Keys, cur: Batch, next: Batch)
    requires |keys| == |cur| && Occurs(next, NoBody) <= 1
    ensures Realignable(keys, cur, next) <==> multiset(next) <= multiset(cur)
    ensures Rewrites(cur, next) ==> |Realigned(keys, cur, next)| == |next|
  {
    if Fits(cur, next, |next|) {
      KeysFollowIff(cur, next);
      MatchingIff(cur, next);
    }
    if multiset(next) <= multiset(cur) {
      SubMultisetIff(next, cur);
      forall i: nat | i < |next| ensures AskedRank(next, i) < Occurs(cur, next[i]) {
        RankBelowCount(next, i);
      }
    }
  }

  /** The key of each member is the key of the equally ranked equal member. */
  lemma {:induction false} RealignedAt(keys: Keys, cur: Batch, next: Batch, i: nat)
    requires |keys| == |cur| && Rewrites(cur, next) && i < |next|
    ensures Realignable(keys, cur, next) && |Realigned(keys, cur, next)| == |next|
    ensures Rank(next, i) < Occurs(cur, next[i])
    ensures Realigned(keys, cur, next)[i] == keys[Nth(cur, next[i], Rank(next, i))]
  {
    AcceptedIff(keys, cur, next);
    SeenOrderAt(cur, next, i);
    RankBelowCount(next, i);
  }

  /** Two rewrites in a row place every key where the direct rewrite does. */
  lemma {:induction false} RealignComposes(keys: Keys, a: Batch, b: Batch, c: Batch)
    requires |keys| == |a| && Rewrites(a, b) && Rewrites(b, c)
    ensures Realignable(keys, a, b) && |Realigned(keys, a, b)| == |b|
    ensures Realignable(Realigned(keys, a, b), b, c) && Realignable(keys, a, c)
    ensures Realigned(Realigned(keys, a, b), b, c) == Realigned(keys, a, c)
  {
    AcceptedIff(keys, a, b);
    AcceptedIff(Realigned(keys, a, b), b, c);
    AcceptedIff(keys, a, c);
    forall i: nat | i < |c| ensures Realigned(Realigned(keys, a, b), b, c)[i] == Realigned(keys, a, c)[i] {
      RealignedAt(keys, a, c, i);
      RealignedAt(Realigned(keys, a, b), b, c, i);
      RealignedAt(keys, a, b, Nth(b, c[i], Rank(c, i)));
    }
  }

  /** Setting the batch it already has leaves the keys alone, unless `None` is repeated. */
  lemma {:induction false} RealignIdentityIff(keys: Keys, a: Batch)
    requires |keys| == |a|
    ensures Realignable(keys, a, a)
    ensures Realigned(keys, a, a) == keys <==> Occurs(a, NoBody) <= 1
  {
    forall i: nat | i < |a| ensures AskedRank(a, i) < Occurs(a, a[i]) {
      RankBelowCount(a, i);
    }
    if Occurs(a, NoBody) <= 1 {
      AcceptedIff(keys, a, a);
      forall i: nat | i < |a| ensures Realigned(keys, a, a)[i] == keys[i] {
        RealignedAt(keys, a, a, i);
        RankInjective(a, i, Nth(a, a[i], Rank(a, i)));
      }
    } else {
      SeenMatches(a, a, |a|);
      OneNoneLength(a, |a|);
    }
  }

  // ----- the publish command -----

  /** The `batch_bodies` getter: a `None` in front is not a member of the batch. */
  function Joined(body: Value, extraBodies: Batch): Batch {
    (if body.NoBody? then [] else [body]) + extraBodies
  }

  /** The command as a value; it has no keys until its constructor has set the attribute. */
  datatype Command = Command(body: Value, extraBodies: Batch, key: Option<Key>, keys: Option<Keys>)
  {
    function BatchBodies(): Batch {
      Joined(body, extraBodies)
    }

    function KeyFor(index: int): Option<Key>
      requires keys.Some?
    {
      KeyForIndex(keys.value, key, index)
    }

    /** There is one key for each message. */
    ghost predicate Keyed() {
      keys.Some? && keys.value != [] && |keys.value| == |BatchBodies()|
    }

    /** Per-message keys, if there are any, are as many as the messages. */
    ghost predicate Aligned() {
      keys == Some([]) || Keyed()
    }

    /** The `batch_bodies` setter, if it does not raise. */
    ghost function Set(value: Batch): Option<Command> {
      if value == [] then Some(this.(body := NoBody, extraBodies := []))
      else if keys.None? || keys.value == [] then Some(this.(body := value[0], extraBodies := value[1..]))
      else if !Realignable(keys.value, BatchBodies(), value) then None
      else
        Some(Command(value[0], value[1..], key, Some(Realigned(keys.value, BatchBodies(), value))))
    }
  }

  /** The setter, once for each of `values`; where it raises, the command stays as it was. */
  ghost function After(c: Command, values: seq<Batch>): Command
    decreases |values|
  {
    if values == [] then c else After(if c.Set(values[0]).Some? then c.Set(values[0]).value else c, values[1..])
  }

  class KafkaPublishCommand {
    var body: Value
    var extraBodies: Batch
    var key: Option<Key>
    var perMessageKeys: Option<Keys>

    function Now(): Command
      reads this
    {
      Command(body, extraBodies, key, perMessageKeys)
    }

    function KeyFor(index: int): Option<Key>
      requires perMessageKeys.Some?
      reads this
    {
      Now().KeyFor(index)
    }

    constructor (message: Value, messages: Batch, key: Option<Key>)
      ensures this.key == key
      ensures var batch := Joined(message, messages);
              if HasKey(batch)
              then
                perMessageKeys == Some(PublishKeys(batch)) &&
                Now().BatchBodies() == Joined(batch[0].Body(), Bodies(batch)[1..])
              else perMessageKeys == Some([]) && Now().BatchBodies() == batch
      ensures var batch := Joined(message, messages);
              Now().Aligned() <==> HasKey(batch) ==> batch[0].Body() != NoBody
      ensures perMessageKeys.Some?
      ensures var batch := Joined(message, messages);
              forall i :: KeyFor(i) ==
                if 0 <= i < |batch| && batch[i].Response? && batch[i].key.Some? then batch[i].key else key
      ensures var batch := Joined(message, messages);
              Keyful(batch) && !(batch[0].NoBody? || (batch[0].Response? && batch[0].body.NoBody?)) ==>
                |Now().BatchBodies()| == |batch| &&
                forall i :: 0 <= i < |batch| ==>
                  Now().BatchBodies()[i] == if batch[i].Response? then batch[i].body else batch[i]
    {
      body := message;
      extraBodies := messages;
      this.key := key;
      perMessageKeys := None;
      new;
      var keys, normalized := ExtractPerMessageKeysAndBodies(Now().BatchBodies());
      if normalized.Some? {
        var _ := SetBatchBodies(normalized.value);
      }
      perMessageKeys := Some(keys);
      KeysAndBodies(Joined(message, messages));
    }

    /** The `batch_bodies` setter; a raising realignment leaves the command as it was. */
    method SetBatchBodies(value: Batch) returns (r: Result<(), Fault>)
      modifies this
      ensures r.Ok? <==> old(Now()).Set(value).Some?
      ensures Now() == if r.Ok? then old(Now()).Set(value).value else old(Now())
      ensures r.Err? ==> exists f: nat :: f <= |value| && FaultAt(old(Now().BatchBodies()), value, f, r.error)
    {
      if |value| == 0 {
        body := NoBody;
        extraBodies := [];
        return Ok(());
      }
      if perMessageKeys.Some? && |perMessageKeys.value| != 0 {
        var aligned := RealignKeys(perMessageKeys.value, Now().BatchBodies(), value);
        if aligned.Err? {
          return Err(aligned.error);
        }
        perMessageKeys := Some(aligned.value);
      }
      body := value[0];
      extraBodies := value[1..];
      return Ok(());
    }
  }

  // ----- keys through any run of the setter -----

  /** The members that get keys are the ones the command has afterwards. */
  ghost predicate Tidy(value: Batch) {
    value == [] || OneNone(value, |value|) == Joined(value[0], value[1..])
  }

  /** `after` has, for each of its messages, the key of the equally ranked equal message of `before`. */
  ghost predicate Follows(before: Command, after: Command) {
    before.Keyed() && after.key == before.key && after.keys.Some? && |after.keys.value| == |after.BatchBodies()| &&
    forall i: nat :: i < |after.BatchBodies()| ==> FollowsAt(before, after, i)
  }

  ghost predicate FollowsAt(before: Command, after: Command, i: nat)
    requires before.Keyed() && after.keys.Some? && i < |after.BatchBodies()| && i < |after.keys.value|
  {
    var b, a := before.BatchBodies(), after.BatchBodies();
    Rank(a, i) < Occurs(b, a[i]) &&
    var origin := Nth(b, a[i], Rank(a, i));
    after.keys.value[i] == before.keys.value[origin] && after.KeyFor(i) == before.KeyFor(origin)
  }

  lemma {:induction false} MatchingFollows(before: Command, after: Command, slots: seq<nat>)
    requires before.Keyed() && after.key == before.key && after.keys.Some?
    requires Matching(before.BatchBodies(), after.BatchBodies(), slots)
    requires after.keys.value == Pick(before.keys.value, slots)
    ensures Follows(before, after)
  {
    var b, a := before.BatchBodies(), after.BatchBodies();
    forall i: nat | i < |a| ensures FollowsAt(before, after, i) {
      RankBelowCount(b, slots[i]);
      RankInjective(b, slots[i], Nth(b, a[i], Rank(a, i)));
    }
  }

  lemma {:induction false} FollowsTwice(a: Command, b: Command, c: Command)
    requires Follows(a, b) && b.Keyed() && Follows(b, c)
    ensures Follows(a, c)
  {
    forall i: nat | i < |c.BatchBodies()| ensures FollowsAt(a, c, i) {
      assert FollowsAt(b, c, i);
      var j := Nth(b.BatchBodies(), c.BatchBodies()[i], Rank(c.BatchBodies(), i));
      assert FollowsAt(a, b, j);
    }
  }

  lemma {:induction false} FollowsItself(c: Command)
    requires c.Keyed()
    ensures Follows(c, c)
  {
    var b := c.BatchBodies();
    forall i: nat | i < |b| ensures FollowsAt(c, c, i) {
      RankBelowCount(b, i);
      RankInjective(b, i, Nth(b, b[i], Rank(b, i)));
    }
  }

  /** One accepted call after which the members that get keys are the messages. */
  lemma {:induction false} TidyFollows(c: Command, value: Batch)
    requires c.Keyed() && value != [] && Tidy(value) && c.Set(value).Some?
    ensures Follows(c, c.Set(value).value) && c.Set(value).value.Keyed()
  {
    var cur := c.BatchBodies();
    SeenMatches(cur, value, |value|);
    MatchingFollows(c, c.Set(value).value, SeenOrder(cur, value, |value|));
  }

  /** A key for each position, no two alike. */
  function DistinctKeys(n: nat): (keys: Keys)
    ensures |keys| == n && forall i :: 0 <= i < n ==> keys[i].Some? && |keys[i].value| == i
  {
    if n == 0 then [] else DistinctKeys(n - 1) + [Some(seq(n - 1, _ => 'k'))]
  }

  /**
   * For exactly which accepted values keys follow bodies: where the members that get keys are the
   * messages, whatever the keys are.
   */
  lemma {:induction false} StepFollowsIff(c: Command, value: Batch)
    requires c.Keyed() && value != [] && c.Set(value).Some?
    ensures Tidy(value) <==>
      forall keys: Keys {:trigger c.(keys := Some(keys))} :: |keys| == |c.keys.value| ==>
        c.(keys := Some(keys)).Set(value).Some? &&
        Follows(c.(keys := Some(keys)), c.(keys := Some(keys)).Set(value).value)
  {
    if Tidy(value) {
      forall keys: Keys | |keys| == |c.keys.value|
        ensures c.(keys := Some(keys)).Set(value).Some?
        ensures Follows(c.(keys := Some(keys)), c.(keys := Some(keys)).Set(value).value)
      {
        TidyFollows(c.(keys := Some(keys)), value);
      }
    } else {
      var d := c.(keys := Some(DistinctKeys(|c.keys.value|)));
      if d.Set(value).Some? && Follows(d, d.Set(value).value) {
        DistinctFollowsTidy(d, value);
      }
    }
  }

  lemma {:induction false} DistinctFollowsTidy(d: Command, value: Batch)
    requires d.Keyed() && d.keys.value == DistinctKeys(|d.keys.value|) && value != []
    requires d.Set(value).Some? && Follows(d, d.Set(value).value)
    ensures Tidy(value)
  {
    var cur, after := d.BatchBodies(), d.Set(value).value;
    var slots := SeenOrder(cur, value, |value|);
    SeenMatches(cur, value, |value|);
    forall i | 0 <= i < |after.BatchBodies()| ensures after.BatchBodies()[i] == OneNone(value, |value|)[i] {
      assert FollowsAt(d, after, i);
      assert slots[i] in slots;
      assert after.KeyFor(i) == d.keys.value[slots[i]];
    }
  }

  // ----- main result -----

  /** Every value that is accepted on the way is tidy. */
  ghost predicate TidyRun(c: Command, values: seq<Batch>)
    decreases |values|
  {
    values == [] ||
    ((c.Set(values[0]).Some? ==> Tidy(values[0])) &&
     TidyRun(if c.Set(values[0]).Some? then c.Set(values[0]).value else c, values[1..]))
  }

  /**
   * However often the batch was set, accepted or refused, message `i` has the key (or the default)
   * that was attached at the start to the equally ranked occurrence of the same body.
   */
  lemma {:induction false} KeysFollowBodies(c: Command, values: seq<Batch>)
    requires c.Keyed() && TidyRun(c, values)
    ensures After(c, values).BatchBodies() != [] ==> Follows(c, After(c, values)) && After(c, values).Keyed()
    decreases |values|
  {
    if values == [] {
      FollowsItself(c);
    } else {
      var next := if c.Set(values[0]).Some? then c.Set(values[0]).value else c;
      if values[0] == [] {
        StaysEmpty(next, values[1..]);
      } else {
        if c.Set(values[0]).Some? {
          TidyFollows(c, values[0]);
        } else {
          FollowsItself(c);
        }
        KeysFollowBodies(next, values[1..]);
        if After(next, values[1..]).BatchBodies() != [] {
          FollowsTwice(c, next, After(next, values[1..]));
        }
      }
    }
  }

  /**
   * What is read for message `i` after any such run of a command made from `batch`: the key that its
   * occurrence of the body came with, or the default if it came with none.
   */
  lemma {:induction false} KeysFromTheStart(batch: Batch, c: Command, values: seq<Batch>, i: nat)
    requires c.Keyed() && TidyRun(c, values) && |c.BatchBodies()| == |batch|
    requires forall j :: 0 <= j < |batch| ==>
      c.BatchBodies()[j] == (if batch[j].Response? then batch[j].body else batch[j]) &&
      c.KeyFor(j) == if batch[j].Response? && batch[j].key.Some? then batch[j].key else c.key
    requires i < |After(c, values).BatchBodies()|
    ensures var last := After(c, values).BatchBodies();
      After(c, values).keys.Some? && Rank(last, i) < Occurs(c.BatchBodies(), last[i]) &&
      var given := batch[Nth(c.BatchBodies(), last[i], Rank(last, i))];
      After(c, values).KeyFor(i) == if given.Response? && given.key.Some? then given.key else c.key
  {
    KeysFollowBodies(c, values);
    assert FollowsAt(c, After(c, values), i);
  }

  /** Outside the batch it is the default. */
  lemma {:induction false} DefaultOutside(c: Command, values: seq<Batch>, i: int)
    requires c.Keyed() && TidyRun(c, values) && After(c, values).BatchBodies() != []
    requires i < 0 || i >= |After(c, values).BatchBodies()|
    ensures After(c, values).keys.Some? && After(c, values).KeyFor(i) == c.key
  {
    KeysFollowBodies(c, values);
  }

  /** After the batch was emptied its keys stay, and no non-empty batch can be set any more. */
  lemma {:induction false} EmptiedBatchRejects(next: Batch)
    ensures Fits([], next, |next|) <==> next == []
  {
    if next != [] {
      assert AskedRank(next, 0) >= Occurs([], next[0]);
    }
  }

  lemma {:induction false} StaysEmpty(c: Command, values: seq<Batch>)
    requires c.keys.Some? && c.keys.value != [] && c.BatchBodies() == []
    ensures After(c, values).BatchBodies() == []
    decreases |values|
  {
    if values != [] {
      EmptiedBatchRejects(values[0]);
      StaysEmpty(if c.Set(values[0]).Some? then c.Set(values[0]).value else c, values[1..]);
    }
  }

  /** Without per-message keys every message keeps the default, whatever is set. */
  lemma {:induction false} UnkeyedStaysUnkeyed(c: Command, values: seq<Batch>, i: int)
    requires c.keys == Some([])
    ensures After(c, values).keys == Some([]) && After(c, values).KeyFor(i) == c.key
    decreases |values|
  {
    if values != [] {
      UnkeyedStaysUnkeyed(c.Set(values[0]).value, values[1..], i);
    }
  }

  /** Any such run that ends with messages is one rewrite to them, exactly unless they repeat `None` from the start. */
  lemma {:induction false} RunIsOneRewrite(c: Command, values: seq<Batch>)
    requires c.Keyed() && TidyRun(c, values)
    ensures var last := After(c, values).BatchBodies();
      last != [] ==>
        ((c.Set(last).Some? && c.Set(last).value.keys == After(c, values).keys) <==> Occurs(last, NoBody) <= 1)
  {
    var d := After(c, values);
    var last := d.BatchBodies();
    if last != [] {
      KeysFollowBodies(c, values);
      if Occurs(last, NoBody) <= 1 {
        FollowsIsRewrite(c, d);
      } else if c.Set(last).Some? {
        FewerKeys(c, last);
      }
    }
  }

  lemma {:induction false} FewerKeys(c: Command, value: Batch)
    requires c.Keyed() && value != [] && c.Set(value).Some? && Occurs(value, NoBody) > 1
    ensures c.Set(value).value.keys.Some? && |c.Set(value).value.keys.value| < |value|
  {
    SeenMatches(c.BatchBodies(), value, |value|);
    OneNoneLength(value, |value|);
  }

  lemma {:induction false} FollowsIsRewrite(c: Command, d: Command)
    requires Follows(c, d) && d.BatchBodies() != [] && Occurs(d.BatchBodies(), NoBody) <= 1
    ensures c.Set(d.BatchBodies()).Some? && c.Set(d.BatchBodies()).value.keys == d.keys
  {
    var last := d.BatchBodies();
    forall b ensures Occurs(last, b) <= Occurs(c.BatchBodies(), b) {
      if Occurs(last, b) > 0 {
        assert FollowsAt(c, d, Nth(last, b, Occurs(last, b) - 1));
      }
    }
    SubMultisetIff(last, c.BatchBodies());
    AcceptedIff(c.keys.value, c.BatchBodies(), last);
    forall i: nat | i < |last| ensures Realigned(c.keys.value, c.BatchBodies(), last)[i] == d.keys.value[i] {
      assert FollowsAt(c, d, i);
      RealignedAt(c.keys.value, c.BatchBodies(), last, i);
    }
    assert Realigned(c.keys.value, c.BatchBodies(), last) == d.keys.value;
  }

  /** What was set is read back, but for a `None` in front, and the default key is not touched. */
  lemma {:induction false} BatchReadsBack(c: Command, value: Batch)
    requires c.Set(value).Some?
    ensures c.Set(value).value.key == c.key
    ensures c.Set(value).value.BatchBodies() == if value != [] && value[0] == NoBody then value[1..] else value
  {
    if value != [] {
      assert value == [value[0]] + value[1..];
    }
  }

  // ----- a None in front -----

  /** A rewrite that does not repeat `None` leaves as many keys as messages exactly without a `None` in front. */
  lemma {:induction false} AlignedIff(c: Command, value: Batch)
    requires c.Keyed() && value != [] && Rewrites(c.BatchBodies(), value)
    ensures c.Set(value).Some? && (c.Set(value).value.Aligned() <==> value[0] != NoBody)
  {
    AcceptedIff(c.keys.value, c.BatchBodies(), value);
    FrontDropped(value);
  }

  /** And exactly then it is tidy. */
  lemma {:induction false} TidyIff(value: Batch)
    requires value != [] && Occurs(value, NoBody) <= 1
    ensures Tidy(value) <==> value[0] != NoBody
  {
    NoNoneRepeats(value, |value|);
    assert value[..|value|] == value;
    FrontDropped(value);
  }

  lemma {:induction false} OneNoneSize(s: Batch, n: nat)
    requires n <= |s|
    ensures |OneNone(s, n)| == if Count(s, n, NoBody) > 0 then n - Count(s, n, NoBody) + 1 else n
    ensures n > 0 ==> OneNone(s, n) != [] && OneNone(s, n)[0] == s[0]
  {
    if n > 0 {
      OneNoneSize(s, n - 1);
    }
  }

  /** After two `None`s in front nothing more is left out, as long as no third one comes. */
  lemma {:induction false} TwoInFront(s: Batch, n: nat)
    requires 2 <= n <= |s| && s[0] == s[1] == NoBody && Count(s, n, NoBody) == 2
    ensures OneNone(s, n) == s[1..n]
  {
    assert Count(s, 1, NoBody) == 1 && Count(s, 2, NoBody) == 2;
    if n == 2 {
      assert OneNone(s, 1) == [s[0]] && OneNone(s, 2) == OneNone(s, 1) + [];
    } else {
      CountGrows(s, 2, n - 1, NoBody);
      TwoInFront(s, n - 1);
      assert s[1..n] == s[1..n - 1] + [s[n - 1]];
    }
  }

  /**
   * What a caller can look at before the call: a batch is tidy exactly with no `None` in front and at
   * most one at all, or with two of them in front and no other, where the one that is dropped and the
   * one that is not entered cancel out.
   */
  lemma {:induction false} TidyClosed(value: Batch)
    requires value != []
    ensures Tidy(value) <==>
      (value[0] != NoBody && Occurs(value, NoBody) <= 1) ||
      (|value| > 1 && value[0] == value[1] == NoBody && Occurs(value, NoBody) == 2)
  {
    FrontDropped(value);
    OneNoneSize(value, |value|);
    if value[0] != NoBody {
      if Occurs(value, NoBody) <= 1 {
        TidyIff(value);
      }
    } else {
      CountGrows(value, 0, |value|, NoBody);
      if Occurs(value, NoBody) == 2 {
        assert |value| > 1 && Joined(value[0], value[1..]) == value[1..];
        if value[1] == NoBody {
          TwoInFront(value, |value|);
          assert value[1..|value|] == value[1..];
        }
      }
    }
  }

  /** So the keys follow through any run that sets no batch with a `None` in front or a second one. */
  lemma {:induction false} PlainRunsAreTidy(c: Command, values: seq<Batch>)
    requires forall j :: 0 <= j < |values| ==>
      values[j] == [] || (values[j][0] != NoBody && Occurs(values[j], NoBody) <= 1)
    ensures TidyRun(c, values)
    decreases |values|
  {
    if values != [] {
      if values[0] != [] {
        TidyIff(values[0]);
      }
      PlainRunsAreTidy(if c.Set(values[0]).Some? then c.Set(values[0]).value else c, values[1..]);
    }
  }

  lemma {:induction false} FrontDropped(value: Batch)
    requires value != []
    ensures var joined := Joined(value[0], value[1..]);
      if value[0] == NoBody then |joined| == |value| - 1 else joined == value
  {
  }

  lemma {:induction false} Swapped(keys: Keys, a: Value)
    requires |keys| == 2 && a != NoBody
    ensures Realignable(keys, [a, NoBody], [NoBody, a])
    ensures Realigned(keys, [a, NoBody], [NoBody, a]) == [keys[1], keys[0]]
  {
    var cur, next := [a, NoBody], [NoBody, a];
    assert multiset(next) == multiset{a, NoBody} == multiset(cur);
    assert Count(next, 0, NoBody) == 0 && next[0] == NoBody && next[1] == a;
    assert Count(next, 1, NoBody) == 1;
    assert Occurs(next, NoBody) == Count(next, 2, NoBody) == 1;
    AcceptedIff(keys, cur, next);
    RealignedAt(keys, cur, next, 0);
    RealignedAt(keys, cur, next, 1);
  }

  lemma {:induction false} Single(keys: Keys, a: Value)
    requires |keys| > 0
    ensures Realignable(keys, [a], [a]) && Realigned(keys, [a], [a]) == [keys[0]]
  {
    assert Rank([a], 0) == 0;
    assert SeenOrder([a], [a], 0) == [];
    assert SeenOrder([a], [a], 1) == [0];
  }

  /** Moving a `None` to the front gives the message behind it the wrong key, and it keeps it. */
  lemma {:induction false} FrontNoneSlips(k1: Key, k2: Key, payload: string)
    ensures var a := Data(payload);
      var c := Command(a, [NoBody], None, Some([Some(k1), Some(k2)]));
      var d := Command(NoBody, [a], None, Some([Some(k2), Some(k1)]));
      var e := Command(a, [], None, Some([Some(k2)]));
      c.KeyFor(0) == Some(k1) && e.KeyFor(0) == Some(k2) &&
      c.Set([NoBody, a]) == Some(d) && d.BatchBodies() == [a] && d.Set([a]) == Some(e)
  {
    var a := Data(payload);
    var c := Command(a, [NoBody], None, Some([Some(k1), Some(k2)]));
    var d := Command(NoBody, [a], None, Some([Some(k2), Some(k1)]));
    Swapped(c.keys.value, a);
    Single(d.keys.value, a);
    assert c.BatchBodies() == [a, NoBody] && d.BatchBodies() == [a];
    assert [NoBody, a][1..] == [a] && [a][1..] == [];
  }

  /** A tombstone in front of a new batch: the command drops the body but not its key, and the keys slip. */
  lemma {:induction false} LeadingTombstoneSlips(k1: Key, k2: Key, payload: string)
    ensures var batch := [Response(NoBody, Some(k1)), Response(Data(payload), Some(k2))];
            HasKey(batch) && Joined(batch[0].Body(), Bodies(batch)[1..]) == [Data(payload)]
            && KeyForIndex(PublishKeys(batch), None, 0) == Some(k1)
  {
    var batch := [Response(NoBody, Some(k1)), Response(Data(payload), Some(k2))];
    assert batch[0].PublishKey().Some?;
  }
}
