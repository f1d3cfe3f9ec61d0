/**
 The slot array of the page cache: hash chains, the doubly linked recency list and the free list,
 all as links between slots of one array. A link is a slot index plus one; zero means none.
 */
module SlotPool {
  import opened Prelude
  import opened RecencyList

  /** `page` is zero for a free slot; `hashNext` links a hash chain or the free list. */
  datatype Slot<P> = Slot(page: nat, data: Option<P>, hashNext: nat, prev: nat, next: nat)

  datatype Pool<P> = Pool(slots: seq<Slot<P>>, hash: seq<nat>, head: nat, tail: nat, free: nat)

  /** Where the lists of a pool run: slots in recency order, free slots, and the slots of each bucket. */
  datatype Shape = Shape(order: seq<nat>, free: seq<nat>, chains: seq<seq<nat>>)

  /** The link to the i-th slot of a list, or none. */
  function Link(list: seq<nat>, i: int): nat {
    if 0 <= i < |list| then list[i] + 1 else 0
  }

  /** Multiplicative hash of a page number. */
  function Bucket(page: nat, buckets: nat): (b: nat)
    requires buckets > 0
    ensures b < buckets
  {
    (page * 2654435761 / 0x1_0000_0000) % buckets
  }

  ghost predicate NoDup(list: seq<nat>) {
    forall i, j :: 0 <= i < j < |list| ==> list[i] != list[j]
  }

  // ---- linked lists in the array ----

  /** The i-th slot of a list points at its neighbours. */
  ghost predicate PairedAt<P>(slots: seq<Slot<P>>, list: seq<nat>, i: nat) {
    && i < |list| && list[i] < |slots|
    && slots[list[i]].prev == Link(list, i - 1) && slots[list[i]].next == Link(list, i + 1)
  }

  ghost predicate Linked<P>(slots: seq<Slot<P>>, list: seq<nat>, head: nat, tail: nat) {
    && head == Link(list, 0) && tail == Link(list, |list| - 1)
    && forall i :: 0 <= i < |list| ==> PairedAt(slots, list, i)
  }

  /** The i-th slot of a chain points at the next. */
  ghost predicate NextAt<P>(slots: seq<Slot<P>>, list: seq<nat>, i: nat) {
    i < |list| && list[i] < |slots| && slots[list[i]].hashNext == Link(list, i + 1)
  }

  ghost predicate Chained<P>(slots: seq<Slot<P>>, list: seq<nat>, head: nat) {
    head == Link(list, 0) && forall i :: 0 <= i < |list| ==> NextAt(slots, list, i)
  }

  // ---- the whole pool ----

  ghost predicate Partition(n: nat, g: Shape) {
    && NoDup(g.order) && NoDup(g.free)
    && (forall s :: s in g.order ==> s < n && s !in g.free)
    && (forall s :: s in g.free ==> s < n)
    && (forall s :: 0 <= s < n ==> s in g.order || s in g.free)
  }

  ghost predicate SlotsUsed<P>(slots: seq<Slot<P>>, g: Shape)
    requires Partition(|slots|, g)
  {
    && (forall s :: s in g.order ==> slots[s].page > 0 && slots[s].data.Some?)
    && (forall s :: s in g.free ==> slots[s].page == 0)
    && (forall s, t :: s in g.order && t in g.order && slots[s].page == slots[t].page ==> s == t)
  }

  /** Each bucket's chain holds exactly the live slots whose page hashes there. */
  ghost predicate BucketsHold<P>(slots: seq<Slot<P>>, g: Shape, buckets: nat)
    requires Partition(|slots|, g) && buckets > 0
  {
    && |g.chains| == buckets
    && (forall b :: 0 <= b < buckets ==> NoDup(g.chains[b]))
    && (forall b, s :: 0 <= b < buckets ==>
          (s in g.chains[b] <==> s in g.order && Bucket(slots[s].page, buckets) == b))
  }

  ghost predicate BucketsChained<P>(slots: seq<Slot<P>>, hash: seq<nat>, chains: seq<seq<nat>>) {
    |hash| == |chains| && forall b :: 0 <= b < |hash| ==> Chained(slots, chains[b], hash[b])
  }

  ghost predicate Wf<P>(p: Pool<P>, g: Shape) {
    && |p.hash| > 0 && Partition(|p.slots|, g)
    && SlotsUsed(p.slots, g)
    && BucketsHold(p.slots, g, |p.hash|)
    && BucketsChained(p.slots, p.hash, g.chains)
    && Chained(p.slots, g.free, p.free)
    && Linked(p.slots, g.order, p.head, p.tail)
  }

  /** The entries of a pool, most recently used first. */
  ghost function Contents<P>(p: Pool<P>, g: Shape): Entries<P>
    requires Wf(p, g)
  {
    seq(|g.order|, i requires 0 <= i < |g.order| => EntryAt(p, g, i))
  }

  ghost function EntryAt<P>(p: Pool<P>, g: Shape, i: nat): (nat, P)
    requires Wf(p, g) && i < |g.order|
  {
    assert g.order[i] in g.order;
    (p.slots[g.order[i]].page, p.slots[g.order[i]].data.value)
  }

  // ---- the edits the operations make ----

  /** Take slot s out of a hash chain; `link` is the link of its predecessor, or none at the bucket's head. */
  function HashCut<P>(p: Pool<P>, b: nat, link: nat, s: nat): Pool<P>
    requires s < |p.slots| && b < |p.hash| && link <= |p.slots|
  {
    if link == 0 then p.(hash := p.hash[b := p.slots[s].hashNext])
    else p.(slots := p.slots[link - 1 := p.slots[link - 1].(hashNext := p.slots[s].hashNext)])
  }

  /** Take slot s out of the recency list. */
  function LruCut<P>(p: Pool<P>, s: nat): Pool<P>
    requires s < |p.slots| && p.slots[s].prev <= |p.slots| && p.slots[s].next <= |p.slots|
  {
    var e := p.slots[s];
    var q := if e.prev > 0 then p.(slots := p.slots[e.prev - 1 := p.slots[e.prev - 1].(next := e.next)])
             else p.(head := e.next);
    if e.next > 0 then q.(slots := q.slots[e.next - 1 := q.slots[e.next - 1].(prev := e.prev)])
    else q.(tail := e.prev)
  }

  /** Put slot s at the front of the recency list. */
  function LruPush<P>(p: Pool<P>, s: nat): Pool<P>
    requires s < |p.slots| && p.head <= |p.slots|
  {
    var slots := p.slots[s := p.slots[s].(prev := 0, next := p.head)];
    var slots' := if p.head > 0 then slots[p.head - 1 := slots[p.head - 1].(prev := s + 1)] else slots;
    p.(slots := slots', head := s + 1, tail := if p.tail == 0 then s + 1 else p.tail)
  }

  /** Clear slot s and put it at the front of the free list. */
  function Reset<P>(p: Pool<P>, s: nat): Pool<P>
    requires s < |p.slots|
  {
    p.(slots := p.slots[s := Slot(0, None, p.free, 0, 0)], free := s + 1)
  }

  /** Take a free slot, fill it, and put it at the front of its bucket. */
  function Fill<P>(p: Pool<P>, page: nat, data: P): Pool<P>
    requires 0 < p.free <= |p.slots| && |p.hash| > 0
  {
    var s := p.free - 1;
    var b := Bucket(page, |p.hash|);
    p.(slots := p.slots[s := p.slots[s].(page := page, data := Some(data), hashNext := p.hash[b])],
       hash := p.hash[b := s + 1],
       free := p.slots[s].hashNext)
  }

  // ---- list lemmas ----

  /** Links stay inside the array. */
  lemma LinkedBounds<P>(slots: seq<Slot<P>>, list: seq<nat>, head: nat, tail: nat, k: nat)
    requires Linked(slots, list, head, tail) && k < |list|
    ensures list[k] < |slots| && slots[list[k]].prev <= |slots| && slots[list[k]].next <= |slots| && head <= |slots|
  {
    assert PairedAt(slots, list, k) && PairedAt(slots, list, 0);
    if k > 0 { assert PairedAt(slots, list, k - 1); }
    if k + 1 < |list| { assert PairedAt(slots, list, k + 1); }
  }

  lemma WithoutFacts(list: seq<nat>, k: nat)
    requires NoDup(list) && k < |list|
    ensures NoDup(Without(list, k))
    ensures forall s :: s in Without(list, k) <==> s in list && s != list[k]
  {
    var w := Without(list, k);
    forall s | s in list && s != list[k] ensures s in w {
      var i :| 0 <= i < |list| && list[i] == s;
      assert w[if i < k then i else i - 1] == s;
    }
  }

  lemma LruCutLinked<P>(p: Pool<P>, list: seq<nat>, k: nat)
    requires Linked(p.slots, list, p.head, p.tail) && NoDup(list) && k < |list|
    requires list[k] < |p.slots| && p.slots[list[k]].prev <= |p.slots| && p.slots[list[k]].next <= |p.slots|
    ensures var q := LruCut(p, list[k]);
      Linked(q.slots, Without(list, k), q.head, q.tail)
  {
    var q := LruCut(p, list[k]);
    var w := Without(list, k);
    assert PairedAt(p.slots, list, k);
    forall i | 0 <= i < |w| ensures PairedAt(q.slots, w, i) {
      var j := if i < k then i else i + 1;
      assert PairedAt(p.slots, list, j);
      assert w[i] == list[j];
      assert Link(w, i - 1) == Link(list, if j - 1 == k then k - 1 else j - 1);
      assert Link(w, i + 1) == Link(list, if j + 1 == k then k + 1 else j + 1);
    }
  }

  lemma LruPushLinked<P>(p: Pool<P>, list: seq<nat>, s: nat)
    requires Linked(p.slots, list, p.head, p.tail) && NoDup(list) && s !in list && s < |p.slots|
    requires p.head <= |p.slots|
    ensures var q := LruPush(p, s);
      Linked(q.slots, [s] + list, q.head, q.tail)
  {
    var q := LruPush(p, s);
    var w := [s] + list;
    forall i | 0 <= i < |w| ensures PairedAt(q.slots, w, i) {
      if i > 0 {
        assert PairedAt(p.slots, list, i - 1);
        assert w[i] == list[i - 1];
        assert Link(w, i + 1) == Link(list, i);
        assert i > 1 ==> Link(w, i - 1) == Link(list, i - 2);
      } else {
        assert Link(w, 1) == Link(list, 0);
      }
    }
    assert Link(w, |w| - 1) == (if list == [] then s + 1 else Link(list, |list| - 1));
  }

  /** The hash fields of two slot arrays agree on a list. */
  ghost predicate SameHash<P>(slots: seq<Slot<P>>, slots': seq<Slot<P>>, list: seq<nat>) {
    |slots| <= |slots'| && forall s :: s in list && s < |slots| ==> slots'[s].hashNext == slots[s].hashNext
  }

  lemma ChainedFrame<P>(slots: seq<Slot<P>>, slots': seq<Slot<P>>, list: seq<nat>, head: nat)
    requires Chained(slots, list, head) && SameHash(slots, slots', list)
    ensures Chained(slots', list, head)
  {
    forall i | 0 <= i < |list| ensures NextAt(slots', list, i) {
      assert NextAt(slots, list, i) && list[i] in list;
    }
  }

  lemma HashCutChained<P>(p: Pool<P>, b: nat, list: seq<nat>, j: nat)
    requires b < |p.hash| && Chained(p.slots, list, p.hash[b]) && NoDup(list) && j < |list|
    requires list[j] < |p.slots| && Link(list, j - 1) <= |p.slots|
    ensures var q := HashCut(p, b, Link(list, j - 1), list[j]);
      Chained(q.slots, Without(list, j), q.hash[b])
  {
    var q := HashCut(p, b, Link(list, j - 1), list[j]);
    var w := Without(list, j);
    assert NextAt(p.slots, list, j);
    forall i | 0 <= i < |w| ensures NextAt(q.slots, w, i) {
      var k := if i < j then i else i + 1;
      assert NextAt(p.slots, list, k);
      assert w[i] == list[k];
      assert Link(w, i + 1) == Link(list, if k + 1 == j then j + 1 else k + 1);
    }
  }

  lemma PushChained<P>(slots: seq<Slot<P>>, slots': seq<Slot<P>>, list: seq<nat>, head: nat, s: nat)
    requires Chained(slots, list, head) && s < |slots'| && SameHash(slots, slots', list)
    requires slots'[s].hashNext == head
    ensures Chained(slots', [s] + list, s + 1)
  {
    ChainedFrame(slots, slots', list, head);
    var w := [s] + list;
    forall i | 0 <= i < |w| ensures NextAt(slots', w, i) {
      assert Link(w, i + 1) == Link(list, i);
      if i > 0 {
        assert NextAt(slots', list, i - 1);
        assert w[i] == list[i - 1];
      }
    }
  }
}
