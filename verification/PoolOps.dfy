/**
 The cache operations on the slot array, each shown to keep the array well formed and to act
 on its contents as the corresponding operation on the recency list.
 */
module PoolOps {
  import opened Prelude
  import opened RecencyList
  import opened SlotPool

  ghost predicate SameLinks<P>(slots: seq<Slot<P>>, slots': seq<Slot<P>>, list: seq<nat>) {
    |slots| == |slots'| &&
    forall s :: s in list && s < |slots| ==> slots'[s].prev == slots[s].prev && slots'[s].next == slots[s].next
  }

  lemma LinkedFrame<P>(slots: seq<Slot<P>>, slots': seq<Slot<P>>, list: seq<nat>, head: nat, tail: nat)
    requires Linked(slots, list, head, tail) && SameLinks(slots, slots', list)
    ensures Linked(slots', list, head, tail)
  {
    forall i | 0 <= i < |list| ensures PairedAt(slots', list, i) {
      assert PairedAt(slots, list, i) && list[i] in list;
    }
  }

  /** A chain keeps its links if nobody writes the hash field of its slots. */
  lemma BucketsFrame<P>(slots: seq<Slot<P>>, slots': seq<Slot<P>>, hash: seq<nat>, chains: seq<seq<nat>>)
    requires BucketsChained(slots, hash, chains)
    requires forall b :: 0 <= b < |chains| ==> SameHash(slots, slots', chains[b])
    ensures BucketsChained(slots', hash, chains)
  {
    forall b | 0 <= b < |hash| ensures Chained(slots', chains[b], hash[b]) {
      ChainedFrame(slots, slots', chains[b], hash[b]);
    }
  }

  // ---- giving a slot back ----

  ghost predicate At(g: Shape, k: nat, b: nat, j: nat) {
    k < |g.order| && b < |g.chains| && j < |g.chains[b]| && g.chains[b][j] == g.order[k]
  }

  ghost function DiscardShape(g: Shape, k: nat, b: nat, j: nat): Shape
    requires At(g, k, b, j)
  {
    Shape(Without(g.order, k), [g.order[k]] + g.free, g.chains[b := Without(g.chains[b], j)])
  }

  /** Slot s leaves its hash chain and the recency list and becomes the first free slot. */
  function Discarded<P>(p: Pool<P>, b: nat, link: nat, s: nat): Pool<P>
    requires s < |p.slots| && b < |p.hash| && link <= |p.slots|
    requires p.slots[s].prev <= |p.slots| && p.slots[s].next <= |p.slots|
  {
    Reset(LruCut(HashCut(p, b, link, s), s), s)
  }

  /** Eviction leaves the recency list first and the hash chain second; the order does not matter. */
  lemma CutsCommute<P>(p: Pool<P>, b: nat, link: nat, s: nat)
    requires s < |p.slots| && b < |p.hash| && link <= |p.slots| && link != s + 1
    requires p.slots[s].prev <= |p.slots| && p.slots[s].next <= |p.slots|
    ensures LruCut(HashCut(p, b, link, s), s) == HashCut(LruCut(p, s), b, link, s)
  {
    var q, r := LruCut(HashCut(p, b, link, s), s), HashCut(LruCut(p, s), b, link, s);
    forall x | 0 <= x < |p.slots| ensures q.slots[x] == r.slots[x] {
      CutsAt(p, b, link, s, x);
    }
    assert q.slots == r.slots;
  }

  /** What leaving the recency list does to a slot. */
  function CutSlot<P>(p: Pool<P>, s: nat, x: nat): Slot<P>
    requires s < |p.slots| && x < |p.slots|
  {
    var e := p.slots[s];
    var slot := if e.prev == x + 1 then p.slots[x].(next := e.next) else p.slots[x];
    if e.next == x + 1 then slot.(prev := e.prev) else slot
  }

  lemma CutSlotAt<P>(p: Pool<P>, s: nat, x: nat)
    requires s < |p.slots| && p.slots[s].prev <= |p.slots| && p.slots[s].next <= |p.slots| && x < |p.slots|
    ensures |LruCut(p, s).slots| == |p.slots| && LruCut(p, s).slots[x] == CutSlot(p, s, x)
  {
  }

  lemma CutsAt<P>(p: Pool<P>, b: nat, link: nat, s: nat, x: nat)
    requires s < |p.slots| && b < |p.hash| && link <= |p.slots| && link != s + 1 && x < |p.slots|
    requires p.slots[s].prev <= |p.slots| && p.slots[s].next <= |p.slots|
    ensures LruCut(HashCut(p, b, link, s), s).slots[x] == HashCut(LruCut(p, s), b, link, s).slots[x]
  {
    CutSlotAt(HashCut(p, b, link, s), s, x);
    CutSlotAt(p, s, x);
    CutSlotAt(p, s, s);
    if link > 0 {
      CutSlotAt(p, s, link - 1);
    }
  }

  lemma DiscardBounds<P>(p: Pool<P>, g: Shape, k: nat, b: nat, j: nat)
    requires Wf(p, g) && At(g, k, b, j)
    ensures g.order[k] < |p.slots| && b < |p.hash| && Link(g.chains[b], j - 1) <= |p.slots|
    ensures p.slots[g.order[k]].prev <= |p.slots| && p.slots[g.order[k]].next <= |p.slots|
    ensures b == Bucket(p.slots[g.order[k]].page, |p.hash|)
  {
    LinkedBounds(p.slots, g.order, p.head, p.tail, k);
    assert g.chains[b][j] in g.chains[b];
    if j > 0 {
      assert NextAt(p.slots, g.chains[b], j - 1);
    }
  }

  /** What a discard does to the fields of the other slots. */
  lemma DiscardFields<P>(p: Pool<P>, b: nat, link: nat, s: nat)
    requires s < |p.slots| && b < |p.hash| && link <= |p.slots| && link != s + 1
    requires p.slots[s].prev <= |p.slots| && p.slots[s].next <= |p.slots|
    ensures var q := Discarded(p, b, link, s);
      && |q.slots| == |p.slots| && |q.hash| == |p.hash|
      && q.slots[s] == Slot(0, None, p.free, 0, 0) && q.free == s + 1
      && (forall x :: 0 <= x < |p.slots| && x != s ==>
            q.slots[x].page == p.slots[x].page && q.slots[x].data == p.slots[x].data)
      && (forall x :: 0 <= x < |p.slots| && x != s && x + 1 != link ==> q.slots[x].hashNext == p.slots[x].hashNext)
      && (link > 0 ==> q.slots[link - 1].hashNext == p.slots[s].hashNext)
      && (forall c :: 0 <= c < |p.hash| && (c != b || link > 0) ==> q.hash[c] == p.hash[c])
      && (link == 0 ==> q.hash[b] == p.slots[s].hashNext)
  {
  }

  lemma DiscardLinked<P>(p: Pool<P>, g: Shape, k: nat, b: nat, link: nat)
    requires Linked(p.slots, g.order, p.head, p.tail) && NoDup(g.order) && k < |g.order|
    requires g.order[k] < |p.slots| && b < |p.hash| && link <= |p.slots|
    requires p.slots[g.order[k]].prev <= |p.slots| && p.slots[g.order[k]].next <= |p.slots|
    ensures var q := Discarded(p, b, link, g.order[k]); Linked(q.slots, Without(g.order, k), q.head, q.tail)
  {
    var s := g.order[k];
    var p1 := HashCut(p, b, link, s);
    LinkedFrame(p.slots, p1.slots, g.order, p.head, p.tail);
    LruCutLinked(p1, g.order, k);
    var p2 := LruCut(p1, s);
    WithoutFacts(g.order, k);
    LinkedFrame(p2.slots, Reset(p2, s).slots, Without(g.order, k), p2.head, p2.tail);
  }

  lemma DiscardPartition(n: nat, g: Shape, k: nat, b: nat, j: nat)
    requires Partition(n, g) && At(g, k, b, j)
    ensures Partition(n, DiscardShape(g, k, b, j))
  {
    WithoutFacts(g.order, k);
    assert g.order[k] in g.order;
  }

  lemma DiscardHolds<P>(p: Pool<P>, g: Shape, k: nat, b: nat, j: nat, slots: seq<Slot<P>>)
    requires |p.hash| > 0 && Partition(|p.slots|, g) && SlotsUsed(p.slots, g) && BucketsHold(p.slots, g, |p.hash|) &&
      At(g, k, b, j)
    requires |slots| == |p.slots| && Partition(|slots|, DiscardShape(g, k, b, j)) && g.order[k] < |slots|
    requires slots[g.order[k]].page == 0
    requires forall x :: 0 <= x < |p.slots| && x != g.order[k] ==>
      slots[x].page == p.slots[x].page && slots[x].data == p.slots[x].data
    ensures SlotsUsed(slots, DiscardShape(g, k, b, j)) && BucketsHold(slots, DiscardShape(g, k, b, j), |p.hash|)
  {
    WithoutFacts(g.order, k);
    WithoutFacts(g.chains[b], j);
    var s, g' := g.order[k], DiscardShape(g, k, b, j);
    assert s in g.order && s in g.chains[b];
    assert SlotsUsed(slots, g');
    forall c, x | 0 <= c < |p.hash|
      ensures x in g'.chains[c] <==> x in g'.order && Bucket(slots[x].page, |p.hash|) == c
    {
      assert x in g.chains[c] <==> x in g.order && Bucket(p.slots[x].page, |p.hash|) == c;
    }
  }

  lemma DiscardChained<P>(p: Pool<P>, g: Shape, k: nat, b: nat, j: nat, q: Pool<P>)
    requires Wf(p, g) && At(g, k, b, j)
    requires g.order[k] < |p.slots| && b < |p.hash| && Link(g.chains[b], j - 1) <= |p.slots|
    requires p.slots[g.order[k]].prev <= |p.slots| && p.slots[g.order[k]].next <= |p.slots|
    requires q == Discarded(p, b, Link(g.chains[b], j - 1), g.order[k])
    ensures BucketsChained(q.slots, q.hash, DiscardShape(g, k, b, j).chains)
    ensures Chained(q.slots, DiscardShape(g, k, b, j).free, q.free)
  {
    var s, chain, link := g.order[k], g.chains[b], Link(g.chains[b], j - 1);
    assert s in g.order && s in chain;
    if j > 0 {
      assert chain[j - 1] in chain && chain[j - 1] != chain[j];
    }
    DiscardFields(p, b, link, s);
    var p1 := HashCut(p, b, link, s);
    WithoutFacts(chain, j);
    HashCutChained(p, b, chain, j);
    ChainedFrame(p1.slots, q.slots, Without(chain, j), p1.hash[b]);
    forall c | 0 <= c < |p.hash| && c != b ensures Chained(q.slots, g.chains[c], q.hash[c]) {
      ChainedFrame(p.slots, q.slots, g.chains[c], p.hash[c]);
    }
    PushChained(p.slots, q.slots, g.free, p.free, s);
  }

  lemma DiscardWf<P>(p: Pool<P>, g: Shape, k: nat, b: nat, j: nat)
    requires Wf(p, g) && At(g, k, b, j)
    requires g.order[k] < |p.slots| && b < |p.hash| && Link(g.chains[b], j - 1) <= |p.slots|
    requires p.slots[g.order[k]].prev <= |p.slots| && p.slots[g.order[k]].next <= |p.slots|
    ensures var q := Discarded(p, b, Link(g.chains[b], j - 1), g.order[k]);
      && Wf(q, DiscardShape(g, k, b, j))
      && Contents(q, DiscardShape(g, k, b, j)) == Without(Contents(p, g), k)
  {
    var s, link := g.order[k], Link(g.chains[b], j - 1);
    var q := Discarded(p, b, link, s);
    DiscardPartition(|p.slots|, g, k, b, j);
    assert link != s + 1 by {
      if j > 0 { assert g.chains[b][j - 1] != g.chains[b][j]; }
    }
    DiscardFields(p, b, link, s);
    DiscardHolds(p, g, k, b, j, q.slots);
    DiscardChained(p, g, k, b, j, q);
    DiscardLinked(p, g, k, b, link);
    DiscardContents(p, q, g, DiscardShape(g, k, b, j), k);
  }

  lemma DiscardContents<P>(p: Pool<P>, q: Pool<P>, g: Shape, g': Shape, k: nat)
    requires Wf(p, g) && Wf(q, g') && k < |g.order| && g'.order == Without(g.order, k)
    requires |q.slots| == |p.slots| && forall x :: 0 <= x < |p.slots| && x != g.order[k] ==>
      q.slots[x].page == p.slots[x].page && q.slots[x].data == p.slots[x].data
    ensures Contents(q, g') == Without(Contents(p, g), k)
  {
    var c := Contents(q, g');
    var w := Without(Contents(p, g), k);
    forall i | 0 <= i < |c| ensures c[i] == w[i] {
      var j := if i < k then i else i + 1;
      assert g.order[j] in g.order;
      assert c[i] == EntryAt(q, g', i) && w[i] == EntryAt(p, g, j);
    }
  }

  // ---- moving a slot to the front ----

  function MovedFront<P>(p: Pool<P>, s: nat): Pool<P>
    requires s < |p.slots| && p.slots[s].prev <= |p.slots| && p.slots[s].next <= |p.slots|
    requires p.head <= |p.slots|
  {
    LruPush(LruCut(p, s), s)
  }

  ghost function FrontShape(g: Shape, k: nat): Shape
    requires k < |g.order|
  {
    g.(order := [g.order[k]] + Without(g.order, k))
  }

  /** Only the recency links change. */
  ghost predicate SamePages<P>(p: Pool<P>, q: Pool<P>) {
    && |q.slots| == |p.slots| && q.hash == p.hash && q.free == p.free
    && forall x :: 0 <= x < |p.slots| ==>
         q.slots[x].page == p.slots[x].page && q.slots[x].data == p.slots[x].data &&
           q.slots[x].hashNext == p.slots[x].hashNext
  }

  lemma MoveFields<P>(p: Pool<P>, s: nat)
    requires s < |p.slots| && p.slots[s].prev <= |p.slots| && p.slots[s].next <= |p.slots|
    requires p.head <= |p.slots|
    ensures SamePages(p, MovedFront(p, s))
  {
    CutPages(p, s);
    PushPages(LruCut(p, s), s);
  }

  lemma CutPages<P>(p: Pool<P>, s: nat)
    requires s < |p.slots| && p.slots[s].prev <= |p.slots| && p.slots[s].next <= |p.slots|
    ensures SamePages(p, LruCut(p, s))
  {
  }

  lemma PushPages<P>(p: Pool<P>, s: nat)
    requires s < |p.slots| && p.head <= |p.slots|
    ensures SamePages(p, LruPush(p, s))
  {
  }

  lemma MoveLinked<P>(p: Pool<P>, order: seq<nat>, k: nat)
    requires Linked(p.slots, order, p.head, p.tail) && NoDup(order) && k < |order|
    requires order[k] < |p.slots| && p.slots[order[k]].prev <= |p.slots| && p.slots[order[k]].next <= |p.slots|
    requires p.head <= |p.slots|
    ensures var q := MovedFront(p, order[k]);
      Linked(q.slots, [order[k]] + Without(order, k), q.head, q.tail)
  {
    LruCutLinked(p, order, k);
    WithoutFacts(order, k);
    LruPushLinked(LruCut(p, order[k]), Without(order, k), order[k]);
  }

  lemma FrontPartition(n: nat, g: Shape, k: nat)
    requires Partition(n, g) && k < |g.order|
    ensures Partition(n, FrontShape(g, k))
    ensures forall s :: s in FrontShape(g, k).order <==> s in g.order
  {
    WithoutFacts(g.order, k);
    assert g.order[k] in g.order;
  }

  lemma MoveWf<P>(p: Pool<P>, g: Shape, k: nat)
    requires Wf(p, g) && k < |g.order|
    requires g.order[k] < |p.slots| && p.slots[g.order[k]].prev <= |p.slots| && p.slots[g.order[k]].next <= |p.slots|
    requires p.head <= |p.slots|
    ensures var q := MovedFront(p, g.order[k]);
      && Wf(q, FrontShape(g, k))
      && Contents(q, FrontShape(g, k)) == [Contents(p, g)[k]] + Without(Contents(p, g), k)
  {
    var q, g' := MovedFront(p, g.order[k]), FrontShape(g, k);
    MoveFields(p, g.order[k]);
    MoveLinked(p, g.order, k);
    FrontPartition(|p.slots|, g, k);
    MoveHolds(p, q, g, g');
    BucketsFrame(p.slots, q.slots, p.hash, g.chains);
    ChainedFrame(p.slots, q.slots, g.free, p.free);
    MoveContents(p, q, g, k);
  }

  lemma MoveHolds<P>(p: Pool<P>, q: Pool<P>, g: Shape, g': Shape)
    requires Wf(p, g) && SamePages(p, q) && Partition(|q.slots|, g') && g'.free == g.free && g'.chains == g.chains
    requires forall s :: s in g'.order <==> s in g.order
    ensures SlotsUsed(q.slots, g') && BucketsHold(q.slots, g', |q.hash|)
  {
    forall c, x | 0 <= c < |p.hash|
      ensures x in g'.chains[c] <==> x in g'.order && Bucket(q.slots[x].page, |p.hash|) == c
    {
      assert x in g.chains[c] <==> x in g.order && Bucket(p.slots[x].page, |p.hash|) == c;
    }
  }

  lemma EntryKept<P>(p: Pool<P>, g: Shape, j: nat, q: Pool<P>, g': Shape, i: nat)
    requires Wf(p, g) && Wf(q, g') && j < |g.order| && i < |g'.order| && g.order[j] == g'.order[i]
    requires SamePages(p, q)
    ensures EntryAt(p, g, j) == EntryAt(q, g', i)
  {
    assert g.order[j] in g.order;
  }

  /** Where element i of a list with element k in front was before. */
  function MovedFrom(k: nat, i: nat): nat {
    if i == 0 then k else if i - 1 < k then i - 1 else i
  }

  lemma FrontAt<T>(s: seq<T>, k: nat, i: nat)
    requires k < |s| && i < |s|
    ensures |[s[k]] + Without(s, k)| == |s| && ([s[k]] + Without(s, k))[i] == s[MovedFrom(k, i)]
  {
  }

  lemma MoveContents<P>(p: Pool<P>, q: Pool<P>, g: Shape, k: nat)
    requires Wf(p, g) && k < |g.order| && Wf(q, FrontShape(g, k)) && SamePages(p, q)
    ensures Contents(q, FrontShape(g, k)) == [Contents(p, g)[k]] + Without(Contents(p, g), k)
  {
    var g' := FrontShape(g, k);
    var c, w := Contents(q, g'), [Contents(p, g)[k]] + Without(Contents(p, g), k);
    FrontAt(g.order, k, 0);
    FrontAt(Contents(p, g), k, 0);
    forall i | 0 <= i < |c| ensures c[i] == w[i] {
      FrontAt(g.order, k, i);
      FrontAt(Contents(p, g), k, i);
      EntryKept(p, g, MovedFrom(k, i), q, g', i);
    }
  }

  // ---- filling a free slot ----

  function Inserted<P>(p: Pool<P>, page: nat, data: P): Pool<P>
    requires 0 < p.free <= |p.slots| && |p.hash| > 0 && p.head <= |p.slots|
  {
    LruPush(Fill(p, page, data), p.free - 1)
  }

  ghost function InsertShape(g: Shape, b: nat): Shape
    requires g.free != [] && b < |g.chains|
  {
    Shape([g.free[0]] + g.order, g.free[1..], g.chains[b := [g.free[0]] + g.chains[b]])
  }

  lemma InsertFields<P>(p: Pool<P>, page: nat, data: P)
    requires 0 < p.free <= |p.slots| && |p.hash| > 0 && p.head <= |p.slots|
    ensures var q, s, b := Inserted(p, page, data), p.free - 1, Bucket(page, |p.hash|);
      && |q.slots| == |p.slots| && q.hash == p.hash[b := s + 1] && q.free == p.slots[s].hashNext
      && q.slots[s].page == page && q.slots[s].data == Some(data) && q.slots[s].hashNext == p.hash[b]
      && forall x :: 0 <= x < |p.slots| && x != s ==>
           q.slots[x].page == p.slots[x].page && q.slots[x].data == p.slots[x].data &&
             q.slots[x].hashNext == p.slots[x].hashNext
  {
  }

  lemma TailFacts(list: seq<nat>)
    requires NoDup(list) && list != []
    ensures NoDup(list[1..])
    ensures forall s :: s in list[1..] <==> s in list && s != list[0]
  {
    assert list[1..] == Without(list, 0);
    WithoutFacts(list, 0);
  }

  lemma InsertPartition(n: nat, g: Shape, b: nat)
    requires Partition(n, g) && g.free != [] && b < |g.chains|
    ensures Partition(n, InsertShape(g, b))
    ensures forall s :: s in g.free[1..] <==> s in g.free && s != g.free[0]
  {
    TailFacts(g.free);
    assert g.free[0] in g.free;
    var order := [g.free[0]] + g.order;
    assert forall i :: 0 <= i < |g.order| ==> g.order[i] in g.order;
    assert NoDup(order);
    assert forall s :: s in order <==> s == g.free[0] || s in g.order;
  }

  lemma InsertHolds<P>(p: Pool<P>, g: Shape, page: nat, b: nat, slots: seq<Slot<P>>)
    requires |p.hash| > 0 && Partition(|p.slots|, g) && SlotsUsed(p.slots, g) && BucketsHold(p.slots, g, |p.hash|)
    requires g.free != [] && b == Bucket(page, |p.hash|) && page > 0 && g.free[0] < |p.slots| == |slots|
    requires Partition(|slots|, InsertShape(g, b)) && forall s :: s in g.free[1..] <==> s in g.free && s != g.free[0]
    requires forall s :: s in g.order ==> p.slots[s].page != page
    requires slots[g.free[0]].page == page && slots[g.free[0]].data.Some?
    requires forall x :: 0 <= x < |p.slots| && x != g.free[0] ==>
      slots[x].page == p.slots[x].page && slots[x].data == p.slots[x].data
    ensures SlotsUsed(slots, InsertShape(g, b)) && BucketsHold(slots, InsertShape(g, b), |p.hash|)
  {
    var s, g' := g.free[0], InsertShape(g, b);
    assert s in g.free;
    assert SlotsUsed(slots, g');
    forall c, x | 0 <= c < |p.hash|
      ensures x in g'.chains[c] <==> x in g'.order && Bucket(slots[x].page, |p.hash|) == c
    {
      assert x in g.chains[c] <==> x in g.order && Bucket(p.slots[x].page, |p.hash|) == c;
    }
    forall c | 0 <= c < |p.hash| ensures NoDup(g'.chains[c]) {
      assert s !in g.chains[c];
    }
  }

  lemma InsertChained<P>(p: Pool<P>, g: Shape, page: nat, data: P, q: Pool<P>)
    requires Wf(p, g) && g.free != [] && 0 < p.free <= |p.slots| && p.head <= |p.slots|
    requires q == Inserted(p, page, data)
    ensures BucketsChained(q.slots, q.hash, InsertShape(g, Bucket(page, |p.hash|)).chains)
    ensures Chained(q.slots, g.free[1..], q.free)
  {
    var s, b := g.free[0], Bucket(page, |p.hash|);
    assert s in g.free && s == p.free - 1;
    InsertFields(p, page, data);
    PushChained(p.slots, q.slots, g.chains[b], p.hash[b], s);
    forall c | 0 <= c < |p.hash| && c != b ensures Chained(q.slots, g.chains[c], q.hash[c]) {
      ChainedFrame(p.slots, q.slots, g.chains[c], p.hash[c]);
    }
    assert NextAt(p.slots, g.free, 0);
    assert Link(g.free[1..], 0) == Link(g.free, 1);
    forall i | 0 <= i < |g.free[1..]| ensures NextAt(q.slots, g.free[1..], i) {
      assert NextAt(p.slots, g.free, i + 1) && g.free[i + 1] != g.free[0];
      assert Link(g.free[1..], i + 1) == Link(g.free, i + 2);
    }
  }

  lemma InsertLinked<P>(p: Pool<P>, g: Shape, page: nat, data: P)
    requires Linked(p.slots, g.order, p.head, p.tail) && NoDup(g.order)
    requires 0 < p.free <= |p.slots| && |p.hash| > 0 && p.head <= |p.slots| && p.free - 1 !in g.order
    ensures var q := Inserted(p, page, data); Linked(q.slots, [p.free - 1] + g.order, q.head, q.tail)
  {
    var f := Fill(p, page, data);
    LinkedFrame(p.slots, f.slots, g.order, p.head, p.tail);
    LruPushLinked(f, g.order, p.free - 1);
  }

  lemma InsertWf<P>(p: Pool<P>, g: Shape, page: nat, data: P)
    requires Wf(p, g) && g.free != [] && page > 0 && 0 < p.free <= |p.slots| && p.head <= |p.slots|
    requires forall s :: s in g.order ==> p.slots[s].page != page
    ensures var q, g' := Inserted(p, page, data), InsertShape(g, Bucket(page, |p.hash|));
      Wf(q, g') && Contents(q, g') == [(page, data)] + Contents(p, g)
  {
    var b := Bucket(page, |p.hash|);
    var q, g' := Inserted(p, page, data), InsertShape(g, b);
    assert g.free[0] in g.free;
    InsertFields(p, page, data);
    InsertPartition(|p.slots|, g, b);
    InsertHolds(p, g, page, b, q.slots);
    InsertChained(p, g, page, data, q);
    InsertLinked(p, g, page, data);
    InsertContents(p, q, g, g', page, data);
  }

  lemma InsertContents<P>(p: Pool<P>, q: Pool<P>, g: Shape, g': Shape, page: nat, data: P)
    requires Wf(p, g) && Wf(q, g') && |q.slots| == |p.slots| && g.free != [] && g'.order == [g.free[0]] + g.order
    requires g.free[0] < |q.slots| && q.slots[g.free[0]].page == page && q.slots[g.free[0]].data == Some(data)
    requires forall x :: 0 <= x < |p.slots| && x != g.free[0] ==>
      q.slots[x].page == p.slots[x].page && q.slots[x].data == p.slots[x].data
    ensures Contents(q, g') == [(page, data)] + Contents(p, g)
  {
    var c, w := Contents(q, g'), [(page, data)] + Contents(p, g);
    assert g.free[0] in g.free;
    forall i | 0 <= i < |c| ensures c[i] == w[i] {
      assert c[i] == EntryAt(q, g', i);
      if i > 0 {
        assert g'.order[i] == g.order[i - 1] && g.order[i - 1] in g.order;
        assert w[i] == EntryAt(p, g, i - 1);
      }
    }
  }

  // ---- replacing the bytes of a held page ----

  function Overwritten<P>(p: Pool<P>, s: nat, data: P): Pool<P>
    requires s < |p.slots|
  {
    p.(slots := p.slots[s := p.slots[s].(data := Some(data))])
  }

  lemma OverwriteWf<P>(p: Pool<P>, g: Shape, k: nat, data: P)
    requires Wf(p, g) && k < |g.order| && g.order[k] < |p.slots|
    ensures var q := Overwritten(p, g.order[k], data);
      && Wf(q, g)
      && Contents(q, g) == Contents(p, g)[k := (Contents(p, g)[k].0, data)]
  {
    var q := Overwritten(p, g.order[k], data);
    assert g.order[k] in g.order;
    BucketsFrame(p.slots, q.slots, p.hash, g.chains);
    ChainedFrame(p.slots, q.slots, g.free, p.free);
    LinkedFrame(p.slots, q.slots, g.order, p.head, p.tail);
    OverwriteHolds(p, g, k, q);
    OverwriteContents(p, q, g, k, data);
  }

  lemma OverwriteHolds<P>(p: Pool<P>, g: Shape, k: nat, q: Pool<P>)
    requires |p.hash| > 0 && Partition(|p.slots|, g) && SlotsUsed(p.slots, g) && BucketsHold(p.slots, g, |p.hash|)
    requires |q.slots| == |p.slots| && forall x :: 0 <= x < |p.slots| ==> q.slots[x].page == p.slots[x].page
    requires forall x :: 0 <= x < |p.slots| && p.slots[x].data.Some? ==> q.slots[x].data.Some?
    ensures SlotsUsed(q.slots, g) && BucketsHold(q.slots, g, |p.hash|)
  {
    forall c, x | 0 <= c < |p.hash|
      ensures x in g.chains[c] <==> x in g.order && Bucket(q.slots[x].page, |p.hash|) == c
    {
      assert x in g.chains[c] <==> x in g.order && Bucket(p.slots[x].page, |p.hash|) == c;
    }
  }

  lemma OverwriteContents<P>(p: Pool<P>, q: Pool<P>, g: Shape, k: nat, data: P)
    requires Wf(p, g) && Wf(q, g) && k < |g.order| && g.order[k] < |p.slots| && q == Overwritten(p, g.order[k], data)
    ensures Contents(q, g) == Contents(p, g)[k := (Contents(p, g)[k].0, data)]
  {
    var c, w := Contents(q, g), Contents(p, g)[k := (Contents(p, g)[k].0, data)];
    forall i | 0 <= i < |c| ensures c[i] == w[i] {
      assert g.order[i] in g.order && (i != k ==> g.order[i] != g.order[k]);
      assert c[i] == EntryAt(q, g, i) && Contents(p, g)[i] == EntryAt(p, g, i);
    }
  }
}
