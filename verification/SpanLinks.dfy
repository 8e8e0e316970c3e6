/** The span links of a batch: one for each correlation id that carries a span, weighted by its messages. */
module SpanLinks {
  import opened Wrappers

  type Id = string

  datatype Headers = Headers(correlationId: Option<Id>, span: Option<string>)

  /** The message count is an attribute only from two messages on. */
  datatype Link = Link(span: string, messageCount: Option<nat>)

  type Batch = seq<Headers>

  function LinkAttributes(count: nat): Option<nat> {
    if count <= 1 then None else Some(count)
  }

  /** The messages a link stands for. */
  function Weight(l: Link): nat {
    if l.messageCount.Some? then l.messageCount.value else 1
  }

  // ----- what the links are, told from the first n messages -----

  predicate Carries(b: Batch, i: nat, id: Id)
    requires i < |b|
  {
    b[i].correlationId == Some(id) && b[i].span.Some?
  }

  function Seen(b: Batch, n: nat, id: Id): nat
    requires n <= |b|
  {
    if n == 0 then 0 else Seen(b, n - 1, id) + if b[n - 1].correlationId == Some(id) then 1 else 0
  }

  /** The last message of an id that carries a span. */
  function LastSpan(b: Batch, n: nat, id: Id): (r: Option<nat>)
    requires n <= |b|
    ensures r.Some? ==> r.value < n && Carries(b, r.value, id)
    ensures forall i: nat :: (if r.Some? then r.value + 1 else 0) <= i < n ==> !Carries(b, i, id)
  {
    if n == 0 then None else if Carries(b, n - 1, id) then Some(n - 1) else LastSpan(b, n - 1, id)
  }

  function LinkOf(b: Batch, n: nat, id: Id): Link
    requires n <= |b| && LastSpan(b, n, id).Some?
  {
    var last := LastSpan(b, n, id).value;
    Link(b[last].span.value, LinkAttributes(Seen(b, last + 1, id)))
  }

  /** The ids with a link, in the order their first spans come. */
  function Linked(b: Batch, n: nat): (r: seq<Id>)
    requires n <= |b|
    ensures forall id :: id in r <==> LastSpan(b, n, id).Some?
    ensures forall i, j :: 0 <= i < j < |r| ==> r[i] != r[j]
  {
    if n == 0 then []
    else
      var r := Linked(b, n - 1);
      if b[n - 1].correlationId.Some? && b[n - 1].span.Some? && b[n - 1].correlationId.value !in r
      then r + [b[n - 1].correlationId.value] else r
  }

  /** An id that is linked before another carries a span before the other does. */
  lemma {:induction false} LinkedInOrder(b: Batch, n: nat, i: nat, j: nat) returns (p: nat)
    requires n <= |b| && i < j < |Linked(b, n)|
    ensures p < n && Carries(b, p, Linked(b, n)[i]) && forall q: nat :: q <= p ==> !Carries(b, q, Linked(b, n)[j])
  {
    var before := Linked(b, n - 1);
    if j < |before| {
      p := LinkedInOrder(b, n - 1, i, j);
    } else {
      p := LastSpan(b, n - 1, before[i]).value;
    }
  }

  ghost predicate Counts(b: Batch, n: nat, counter: map<Id, nat>)
    requires n <= |b|
  {
    forall id :: (if id in counter then counter[id] else 0) == Seen(b, n, id)
  }

  ghost predicate Links(b: Batch, n: nat, byId: map<Id, Link>)
    requires n <= |b|
  {
    forall id :: (id in byId <==> LastSpan(b, n, id).Some?) && (id in byId ==> byId[id] == LinkOf(b, n, id))
  }

  lemma {:induction false} CountsNext(b: Batch, n: nat, counter: map<Id, nat>)
    requires n < |b| && Counts(b, n, counter)
    ensures b[n].correlationId.None? ==> Counts(b, n + 1, counter)
    ensures b[n].correlationId.Some? ==>
      var id := b[n].correlationId.value;
      Counts(b, n + 1, counter[id := (if id in counter then counter[id] else 0) + 1])
  {
  }

  lemma {:induction false} LinksSkip(b: Batch, n: nat, byId: map<Id, Link>)
    requires n < |b| && Links(b, n, byId) && (b[n].correlationId.None? || b[n].span.None?)
    ensures Links(b, n + 1, byId) && Linked(b, n + 1) == Linked(b, n)
  {
    forall id
      ensures (id in byId <==> LastSpan(b, n + 1, id).Some?) && (id in byId ==> byId[id] == LinkOf(b, n + 1, id))
    {
      assert !Carries(b, n, id) && LastSpan(b, n + 1, id) == LastSpan(b, n, id);
    }
  }

  lemma {:induction false} LinksNext(b: Batch, n: nat, byId: map<Id, Link>, id: Id)
    requires n < |b| && Links(b, n, byId) && Carries(b, n, id)
    ensures Links(b, n + 1, byId[id := Link(b[n].span.value, LinkAttributes(Seen(b, n + 1, id)))])
    ensures Linked(b, n + 1) == if id in byId then Linked(b, n) else Linked(b, n) + [id]
  {
    var next := byId[id := Link(b[n].span.value, LinkAttributes(Seen(b, n + 1, id)))];
    forall j
      ensures (j in next <==> LastSpan(b, n + 1, j).Some?) && (j in next ==> next[j] == LinkOf(b, n + 1, j))
    {
      assert j != id ==> !Carries(b, n, j) && LastSpan(b, n + 1, j) == LastSpan(b, n, j);
    }
  }

  lemma {:induction false} SeenNone(b: Batch, n: nat, id: Id)
    requires n <= |b|
    ensures Seen(b, n, id) == 0 <==> forall i :: 0 <= i < n ==> b[i].correlationId != Some(id)
  {
    if n > 0 {
      SeenNone(b, n - 1, id);
    }
  }

  /** The links of a message: of its own headers, or one for each linked id of its batch. */
  method GetMsgLinks(headers: Headers, batch: Batch) returns (links: seq<Link>)
    ensures batch == [] ==> links == if headers.span.Some? then [Link(headers.span.value, None)] else []
    ensures batch != [] ==> links == AllLinks(batch, Linked(batch, |batch|))
  {
    if batch == [] {
      return if headers.span.Some? then [Link(headers.span.value, None)] else [];
    }
    var order: seq<Id>, byId: map<Id, Link>, counter: map<Id, nat> := [], map[], map[];
    for i := 0 to |batch|
      invariant order == Linked(batch, i) && Links(batch, i, byId) && Counts(batch, i, counter)
    {
      CountsNext(batch, i, counter);
      if batch[i].correlationId.None? {
        LinksSkip(batch, i, byId);
        continue;
      }
      var id := batch[i].correlationId.value;
      counter := counter[id := (if id in counter then counter[id] else 0) + 1];
      if batch[i].span.None? {
        LinksSkip(batch, i, byId);
        continue;
      }
      LinksNext(batch, i, byId, id);
      assert counter[id] == Seen(batch, i + 1, id);
      if id !in byId {
        order := order + [id];
      }
      byId := byId[id := Link(batch[i].span.value, LinkAttributes(counter[id]))];
    }
    links := Values(batch, order, byId);
  }

  function AllLinks(b: Batch, ids: seq<Id>): seq<Link>
    requires forall k :: 0 <= k < |ids| ==> LastSpan(b, |b|, ids[k]).Some?
  {
    seq(|ids|, k requires 0 <= k < |ids| => LinkOf(b, |b|, ids[k]))
  }

  method Values(ghost b: Batch, order: seq<Id>, byId: map<Id, Link>) returns (links: seq<Link>)
    requires order == Linked(b, |b|) && Links(b, |b|, byId)
    ensures links == AllLinks(b, order)
  {
    assert forall k :: 0 <= k < |order| ==> order[k] in order && order[k] in byId;
    links := seq(|order|, k requires 0 <= k < |order| => byId[order[k]]);
  }

  /**
   * A link carries the last span of its id, and a message count exactly if that was not the id's first
   * message; the count is then that of the id's messages up to it.
   */
  lemma {:induction false} LinkShows(b: Batch, k: nat)
    requires k < |Linked(b, |b|)|
    ensures var id := Linked(b, |b|)[k];
      LastSpan(b, |b|, id).Some? &&
      var last, link := LastSpan(b, |b|, id).value, AllLinks(b, Linked(b, |b|))[k];
      b[last].span == Some(link.span) &&
      (link.messageCount.None? <==> forall i :: 0 <= i < last ==> b[i].correlationId != Some(id)) &&
      (link.messageCount.Some? ==> link.messageCount.value == Seen(b, last + 1, id) > 1)
  {
    var id := Linked(b, |b|)[k];
    assert id in Linked(b, |b|);
    SeenNone(b, LastSpan(b, |b|, id).value, id);
  }

  // ----- every message is counted once, or lost -----

  function Total(links: seq<Link>): nat {
    if links == [] then 0 else Weight(links[0]) + Total(links[1..])
  }

  /** A message is in a link exactly if it, or a later one of its id, carries a span. */
  predicate Kept(b: Batch, i: nat)
    requires i < |b|
  {
    b[i].correlationId.Some? && var last := LastSpan(b, |b|, b[i].correlationId.value); last.Some? && i <= last.value
  }

  function Keeps(b: Batch, n: nat, ids: seq<Id>): nat
    requires n <= |b|
  {
    if n == 0 then 0 else Keeps(b, n - 1, ids) + if Kept(b, n - 1) && b[n - 1].correlationId.value in ids then 1 else 0
  }

  function Lost(b: Batch, n: nat): nat
    requires n <= |b|
  {
    if n == 0 then 0 else Lost(b, n - 1) + if Kept(b, n - 1) then 0 else 1
  }

  lemma {:induction false} KeptIff(b: Batch, i: nat)
    requires i < |b|
    ensures Kept(b, i) <==>
      b[i].correlationId.Some? && exists j: nat :: i <= j < |b| && Carries(b, j, b[i].correlationId.value)
  {
  }

  lemma {:induction false} KeepsSplit(b: Batch, n: nat, ids: seq<Id>)
    requires n <= |b| && ids != [] && ids[0] !in ids[1..]
    ensures Keeps(b, n, ids) == Keeps(b, n, [ids[0]]) + Keeps(b, n, ids[1..])
  {
    if n > 0 {
      KeepsSplit(b, n - 1, ids);
      assert ids == [ids[0]] + ids[1..];
    }
  }

  lemma {:induction false} KeepsOne(b: Batch, n: nat, id: Id)
    requires n <= |b| && LastSpan(b, |b|, id).Some?
    ensures var last := LastSpan(b, |b|, id).value;
      Keeps(b, n, [id]) == Seen(b, if n <= last then n else last + 1, id)
  {
    if n > 0 {
      KeepsOne(b, n - 1, id);
    }
  }

  lemma {:induction false} WeightIsCount(b: Batch, id: Id)
    requires LastSpan(b, |b|, id).Some?
    ensures Weight(LinkOf(b, |b|, id)) == Keeps(b, |b|, [id])
  {
    KeepsOne(b, |b|, id);
  }

  lemma {:induction false} TotalKeeps(b: Batch, ids: seq<Id>)
    requires forall k :: 0 <= k < |ids| ==> LastSpan(b, |b|, ids[k]).Some?
    requires forall i, j :: 0 <= i < j < |ids| ==> ids[i] != ids[j]
    ensures Total(AllLinks(b, ids)) == Keeps(b, |b|, ids)
    decreases |ids|
  {
    if ids == [] {
      KeepsNone(b, |b|);
    } else {
      TotalKeeps(b, ids[1..]);
      KeepsSplit(b, |b|, ids);
      WeightIsCount(b, ids[0]);
      assert AllLinks(b, ids)[1..] == AllLinks(b, ids[1..]);
    }
  }

  lemma {:induction false} KeepsNone(b: Batch, n: nat)
    requires n <= |b|
    ensures Keeps(b, n, []) == 0
  {
    if n > 0 {
      KeepsNone(b, n - 1);
    }
  }

  lemma {:induction false} KeepsOrLoses(b: Batch, n: nat)
    requires n <= |b|
    ensures Keeps(b, n, Linked(b, |b|)) + Lost(b, n) == n
  {
    if n > 0 {
      KeepsOrLoses(b, n - 1);
    }
  }

  /** The weights of the links and the messages that are lost make up the batch. */
  lemma {:induction false} WeightsAndLost(b: Batch)
    ensures Total(AllLinks(b, Linked(b, |b|))) + Lost(b, |b|) == |b|
  {
    TotalKeeps(b, Linked(b, |b|));
    KeepsOrLoses(b, |b|);
  }

  lemma {:induction false} LostNone(b: Batch, n: nat)
    requires n <= |b|
    ensures Lost(b, n) == 0 <==> forall i: nat :: i < n ==> Kept(b, i)
  {
    if n > 0 {
      LostNone(b, n - 1);
    }
  }

  /** The weights sum to the batch exactly if every message has an id, and a span at it or later under that id. */
  lemma {:induction false} WeightsSumIff(b: Batch)
    ensures Total(AllLinks(b, Linked(b, |b|))) == |b| <==> forall i: nat :: i < |b| ==> Kept(b, i)
  {
    WeightsAndLost(b);
    LostNone(b, |b|);
  }

  /** In particular when every message has an id and a span. */
  lemma {:induction false} CompleteBatch(b: Batch)
    requires forall i :: 0 <= i < |b| ==> b[i].correlationId.Some? && b[i].span.Some?
    ensures Total(AllLinks(b, Linked(b, |b|))) == |b|
  {
    forall i: nat | i < |b| ensures Kept(b, i) {
      KeptIff(b, i);
      assert Carries(b, i, b[i].correlationId.value);
    }
    WeightsSumIff(b);
  }
}
