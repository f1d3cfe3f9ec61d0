/**
 The RAM page cache: one array of slots, hash chains through it, an intrusive recency list
 and a free list. Every operation is tied to the recency list of RecencyList.
 */
module RamCache {
  import opened Prelude
  import opened RecencyList
  import opened SlotPool
  import opened PoolOps

  const MAX_SLOTS: nat := 4194304
  const MAX_DOUBLING: nat := 4194304
  const MEGABYTE: nat := 1048576

  ghost predicate PowerOfTwo(n: nat) {
    n == 1 || (n > 1 && n % 2 == 0 && PowerOfTwo(n / 2))
  }

  lemma ContentsDistinct<P>(p: Pool<P>, g: Shape)
    requires Wf(p, g)
    ensures Distinct(Contents(p, g)) && |Contents(p, g)| == |g.order|
  {
    var c := Contents(p, g);
    forall i, j | 0 <= i < j < |c| ensures c[i].0 != c[j].0 {
      assert c[i] == EntryAt(p, g, i) && c[j] == EntryAt(p, g, j);
      assert g.order[i] in g.order && g.order[j] in g.order;
    }
  }

  /** A page is cached exactly if its bucket's chain has a slot for it. */
  lemma HeldWhere<P>(p: Pool<P>, g: Shape, page: nat, j: nat) returns (k: nat)
    requires Wf(p, g)
    requires var chain := g.chains[Bucket(page, |p.hash|)];
      j < |chain| && chain[j] < |p.slots| && p.slots[chain[j]].page == page
    ensures At(g, k, Bucket(page, |p.hash|), j)
    ensures Has(Contents(p, g), page) && IndexOf(Contents(p, g), page) == k
    ensures page > 0
  {
    var b := Bucket(page, |p.hash|);
    assert g.chains[b][j] in g.chains[b];
    k :| 0 <= k < |g.order| && g.order[k] == g.chains[b][j];
    assert Contents(p, g)[k] == EntryAt(p, g, k);
    ContentsDistinct(p, g);
    IndexUnique(Contents(p, g), page, k);
  }

  lemma NotHeld<P>(p: Pool<P>, g: Shape, page: nat)
    requires Wf(p, g)
    requires forall s :: s in g.chains[Bucket(page, |p.hash|)] ==> s < |p.slots| && p.slots[s].page != page
    ensures !Has(Contents(p, g), page)
    ensures forall s :: s in g.order ==> p.slots[s].page != page
  {
    var b := Bucket(page, |p.hash|);
    forall s | s in g.order ensures p.slots[s].page != page {
      assert s in g.chains[b] <==> s in g.order && Bucket(p.slots[s].page, |p.hash|) == b;
    }
    forall i | 0 <= i < |g.order| ensures !HasAt(Contents(p, g), page, i) {
      assert Contents(p, g)[i] == EntryAt(p, g, i) && g.order[i] in g.order;
    }
  }

  /** What is charged stays count pages, and fewer pages fit where more did. */
  lemma Accounting(n: nat, pageSize: nat, budget: nat)
    requires n > 0
    ensures n * pageSize >= pageSize && n * pageSize - pageSize == (n - 1) * pageSize
    ensures WithinBudget(n, pageSize, budget) ==> WithinBudget(n - 1, pageSize, budget)
  {
    assert n * pageSize == (n - 1) * pageSize + pageSize;
    assert (n - 1) * pageSize >= 0;
  }

  lemma LastSlot<P>(p: Pool<P>, g: Shape)
    requires Wf(p, g) && p.tail > 0
    ensures g.order != [] && var s := g.order[|g.order| - 1];
      && s == p.tail - 1 && s < |p.slots| && p.slots[s].prev <= |p.slots| && p.slots[s].next <= |p.slots|
      && s in g.chains[Bucket(p.slots[s].page, |p.hash|)]
  {
    LinkedBounds(p.slots, g.order, p.head, p.tail, |g.order| - 1);
    assert g.order[|g.order| - 1] in g.order;
  }

  lemma DiscardLast<P>(p: Pool<P>, g: Shape, k: nat, b: nat, j: nat)
    requires Wf(p, g) && At(g, k, b, j) && k == |g.order| - 1
    requires g.order[k] < |p.slots| && b < |p.hash| && Link(g.chains[b], j - 1) <= |p.slots|
    requires p.slots[g.order[k]].prev <= |p.slots| && p.slots[g.order[k]].next <= |p.slots|
    ensures var q, g' := Discarded(p, b, Link(g.chains[b], j - 1), g.order[k]), DiscardShape(g, k, b, j);
      Wf(q, g') && Contents(q, g') == Contents(p, g)[..k]
  {
    DiscardWf(p, g, k, b, j);
    assert Without(Contents(p, g), k) == Contents(p, g)[..k];
  }

  lemma FirstSlot<P>(p: Pool<P>, g: Shape, k: nat)
    requires Wf(p, g) && k < |g.order| && p.head == g.order[k] + 1
    ensures Contents(p, g) == [Contents(p, g)[k]] + Without(Contents(p, g), k)
  {
    assert g.order[0] == g.order[k];
    assert k == 0;
  }

  lemma NoPageZero<P>(p: Pool<P>, g: Shape)
    requires Wf(p, g)
    ensures !Has(Contents(p, g), 0)
  {
    forall i | 0 <= i < |g.order| ensures !HasAt(Contents(p, g), 0, i) {
      assert Contents(p, g)[i] == EntryAt(p, g, i) && g.order[i] in g.order;
    }
  }

  lemma FreeSlot<P>(p: Pool<P>, g: Shape)
    requires Wf(p, g) && p.free > 0
    ensures g.free != [] && p.free <= |p.slots| && p.head <= |p.slots|
  {
    assert NextAt(p.slots, g.free, 0);
    if g.order != [] { assert PairedAt(p.slots, g.order, 0); }
  }

  /** Distinct slots below n are at most n, and exactly n if none is missing. */
  lemma {:induction false} CountSlots(n: nat, list: seq<nat>)
    requires NoDup(list) && forall s :: s in list ==> s < n
    ensures |list| <= n
    ensures (forall s :: 0 <= s < n ==> s in list) ==> |list| == n
  {
    if list != [] {
      assert list[0] in list;
    }
    if n > 0 && n - 1 in list {
      var k :| 0 <= k < |list| && list[k] == n - 1;
      WithoutFacts(list, k);
      CountSlots(n - 1, Without(list, k));
    } else if n > 0 {
      CountSlots(n - 1, list);
    }
  }

  /** A pool has a slot for every page it holds, and a free one unless all are taken. */
  lemma Capacity<P>(p: Pool<P>, g: Shape)
    requires Wf(p, g)
    ensures |g.order| <= |p.slots| && (p.free == 0 <==> |g.order| == |p.slots|)
    ensures p.tail == 0 <==> g.order == []
  {
    CountSlots(|p.slots|, g.order);
    if g.free != [] {
      assert g.free[0] in g.free && forall i :: 0 <= i < |g.order| ==> g.order[i] in g.order;
      CountSlots(|p.slots|, [g.free[0]] + g.order);
    }
  }

  lemma StillAbsent<P>(p: Pool<P>, g: Shape, page: nat)
    requires Wf(p, g) && !Has(Contents(p, g), page)
    ensures forall s :: s in g.order ==> s < |p.slots| && p.slots[s].page != page
  {
    forall s | s in g.order ensures s < |p.slots| && p.slots[s].page != page {
      var i :| 0 <= i < |g.order| && g.order[i] == s;
      assert Contents(p, g)[i] == EntryAt(p, g, i);
      assert !HasAt(Contents(p, g), page, i);
    }
  }

  lemma Refreshed<P>(l: Entries<P>, page: nat, data: P, k: nat, p: Pool<P>, g: Shape)
    requires HasAt(l, page, k) && Wf(p, g) && Contents(p, g) == l[k := (page, data)]
    ensures Touched(Contents(p, g), page) == [(page, data)] + Without(l, k)
  {
    ContentsDistinct(p, g);
    IndexUnique(Contents(p, g), page, k);
    assert Without(l[k := (page, data)], k) == Without(l, k);
  }

  ghost function EmptyShape(pool: nat, buckets: nat): Shape {
    Shape([], seq(pool, i => i), seq(buckets, _ => []))
  }

  lemma EmptyWf<P>(p: Pool<P>, pool: nat, buckets: nat)
    requires pool > 0 && buckets > 0 && |p.slots| == pool && |p.hash| == buckets
    requires forall i :: 0 <= i < pool ==> p.slots[i] == Slot(0, None, if i + 1 < pool then i + 2 else 0, 0, 0)
    requires forall b :: 0 <= b < buckets ==> p.hash[b] == 0
    requires p.head == 0 && p.tail == 0 && p.free == 1
    ensures Wf(p, EmptyShape(pool, buckets)) && Contents(p, EmptyShape(pool, buckets)) == []
  {
    var g := EmptyShape(pool, buckets);
    forall s | 0 <= s < pool ensures s in g.free {
      assert g.free[s] == s;
    }
    assert Chained(p.slots, g.free, p.free);
  }

  class Cache<P> {
    const pageSize: nat
    var budget: nat
    var used: nat
    var count: nat
    var entries: array<Slot<P>>
    var hash: array<nat>
    var lruHead: nat
    var lruTail: nat
    var freeHead: nat
    ghost var shape: Shape

    ghost function Links(): Pool<P>
      reads this, entries, hash
    {
      Pool(entries[..], hash[..], lruHead, lruTail, freeHead)
    }

    /** The bytes in use are the pages times their size, and fit the budget but for a single page. */
    ghost predicate Accounted()
      reads this
    {
      used == count * pageSize && WithinBudget(count, pageSize, budget)
    }

    /** A zero budget switches the cache off. */
    ghost predicate Valid()
      reads this, entries, hash
    {
      if budget == 0 then entries.Length == 0 && count == 0 && used == 0
      else
        && pageSize > 0 && entries.Length > 0
        && Wf(Links(), shape)
        && count == |shape.order| && Accounted()
    }

    /** The cached pages, most recently used first. */
    ghost function Cached(): Entries<P>
      requires Valid()
      reads this, entries, hash
    {
      if budget == 0 then [] else Contents(Links(), shape)
    }

    constructor (pageSize: nat)
      ensures Valid() && budget == 0 && this.pageSize == pageSize && fresh(entries) && fresh(hash)
    {
      this.pageSize := pageSize;
      budget, used, count, lruHead, lruTail, freeHead := 0, 0, 0, 0, 0, 0;
      entries, hash := new Slot<P>[0], new nat[0];
      shape := Shape([], [], []);
    }

    /** Switch the cache on: one slot per page of budget and one more, and a power-of-two hash table. */
    method Init(mb: nat)
      requires Valid()
      modifies this
      ensures Valid()
      ensures old(budget) > 0 || mb == 0 || pageSize == 0 ==> unchanged(this)
      ensures old(budget) == 0 && mb > 0 && pageSize > 0 ==>
        && budget == mb * MEGABYTE && fresh(entries) && fresh(hash) && Cached() == []
        && entries.Length == (if budget / pageSize + 1 > MAX_SLOTS then MAX_SLOTS else budget / pageSize + 1)
        && PowerOfTwo(hash.Length) && (2 * entries.Length <= hash.Length || hash.Length > MAX_DOUBLING)
    {
      if budget > 0 || mb == 0 || pageSize == 0 {
        return;
      }
      budget := mb * MEGABYTE;
      var pool := budget / pageSize + 1;
      if pool > MAX_SLOTS {
        pool := MAX_SLOTS;
      }
      Allocate(pool);
    }

    method Allocate(pool: nat)
      requires pool > 0
      modifies this
      ensures unchanged(`budget) && fresh(entries) && fresh(hash) && entries.Length == pool
      ensures used == 0 && count == 0 && shape.order == [] && Wf(Links(), shape) && Contents(Links(), shape) == []
      ensures PowerOfTwo(hash.Length) && (2 * pool <= hash.Length || hash.Length > MAX_DOUBLING)
    {
      var buckets := BucketCount(pool);
      entries := FreeSlots(pool);
      hash := new nat[buckets](_ => 0);
      used, count, lruHead, lruTail, freeHead := 0, 0, 0, 0, 1;
      shape := EmptyShape(pool, buckets);
      EmptyWf(Links(), pool, buckets);
    }

    static method BucketCount(pool: nat) returns (buckets: nat)
      requires pool > 0
      ensures buckets > 0 && PowerOfTwo(buckets) && (2 * pool <= buckets || buckets > MAX_DOUBLING)
    {
      buckets := 1;
      while buckets < pool * 2 && buckets <= MAX_DOUBLING
        invariant buckets > 0 && PowerOfTwo(buckets)
        decreases pool * 2 - buckets
      {
        buckets := buckets * 2;
      }
    }

    static method FreeSlots(pool: nat) returns (slots: array<Slot<P>>)
      ensures fresh(slots) && slots.Length == pool
      ensures forall i :: 0 <= i < pool ==> slots[i] == Slot(0, None, if i + 1 < pool then i + 2 else 0, 0, 0)
    {
      slots := new Slot<P>[pool](_ => Slot(0, None, 0, 0, 0));
      for i := 0 to pool
        invariant forall k :: 0 <= k < i ==> slots[k] == Slot(0, None, if k + 1 < pool then k + 2 else 0, 0, 0)
        invariant forall k :: i <= k < pool ==> slots[k] == Slot(0, None, 0, 0, 0)
      {
        slots[i] := slots[i].(hashNext := if i + 1 < pool then i + 2 else 0);
      }
    }

    /** Forget everything and switch the cache off. */
    method Clear()
      modifies this
      ensures Valid() && budget == 0 && Cached() == []
    {
      budget, used, count, lruHead, lruTail, freeHead := 0, 0, 0, 0, 0, 0;
      entries, hash := new Slot<P>[0], new nat[0];
    }

    // ---- the edits ----

    method CutHash(b: nat, link: nat, s: nat)
      requires s < entries.Length && b < hash.Length && link <= entries.Length
      modifies entries, hash
      ensures Links() == HashCut(old(Links()), b, link, s)
    {
      if link == 0 {
        hash[b] := entries[s].hashNext;
      } else {
        entries[link - 1] := entries[link - 1].(hashNext := entries[s].hashNext);
      }
    }

    method CutLru(s: nat)
      requires s < entries.Length && entries[s].prev <= entries.Length && entries[s].next <= entries.Length
      modifies entries, `lruHead, `lruTail
      ensures Links() == LruCut(old(Links()), s)
    {
      var prev, next := entries[s].prev, entries[s].next;
      if prev > 0 {
        entries[prev - 1] := entries[prev - 1].(next := next);
      } else {
        lruHead := next;
      }
      if next > 0 {
        entries[next - 1] := entries[next - 1].(prev := prev);
      } else {
        lruTail := prev;
      }
    }

    method PushLru(s: nat)
      requires s < entries.Length && lruHead <= entries.Length
      modifies entries, `lruHead, `lruTail
      ensures Links() == LruPush(old(Links()), s)
    {
      entries[s] := entries[s].(prev := 0, next := lruHead);
      if lruHead > 0 {
        entries[lruHead - 1] := entries[lruHead - 1].(prev := s + 1);
      }
      lruHead := s + 1;
      if lruTail == 0 {
        lruTail := s + 1;
      }
    }

    method Release(s: nat)
      requires s < entries.Length
      modifies entries, `freeHead
      ensures Links() == Reset(old(Links()), s)
    {
      entries[s] := Slot(0, None, freeHead, 0, 0);
      freeHead := s + 1;
    }

    // ---- walking a chain ----

    ghost predicate ChainOf(b: nat, chain: seq<nat>)
      reads this, entries, hash
    {
      b < hash.Length && Chained(entries[..], chain, hash[b])
    }

    /** Follow a chain to the first slot that holds a page. */
    method Walk(page: nat, b: nat, ghost chain: seq<nat>) returns (slot: nat, link: nat, ghost j: nat)
      requires ChainOf(b, chain)
      ensures slot == 0 ==> forall s :: s in chain ==> s < entries.Length && entries[s].page != page
      ensures slot > 0 ==>
        j < |chain| && slot - 1 == chain[j] < entries.Length && entries[slot - 1].page == page &&
          link == Link(chain, j - 1)
    {
      slot, link, j := hash[b], 0, 0;
      assert |chain| > 0 ==> NextAt(entries[..], chain, 0);
      while slot > 0 && entries[slot - 1].page != page
        invariant j <= |chain| && slot == Link(chain, j) && link == Link(chain, j - 1)
        invariant slot > 0 ==> slot - 1 < entries.Length
        invariant forall i :: 0 <= i < j ==> chain[i] < entries.Length && entries[chain[i]].page != page
        decreases |chain| - j
      {
        assert NextAt(entries[..], chain, j);
        assert j + 1 < |chain| ==> NextAt(entries[..], chain, j + 1);
        slot, link, j := entries[slot - 1].hashNext, slot, j + 1;
      }
    }

    /** The slot of a page (plus one, zero if absent) and the link of the slot before it in its chain. */
    method Find(page: nat) returns (slot: nat, link: nat, ghost k: nat, ghost j: nat)
      requires Valid() && budget > 0
      ensures slot > 0 <==> Has(Cached(), page)
      ensures slot == 0 ==> forall s :: s in shape.order ==> s < entries.Length && entries[s].page != page
      ensures slot > 0 ==>
        var b := Bucket(page, hash.Length);
        && At(shape, k, b, j) && slot - 1 == shape.order[k] && link == Link(shape.chains[b], j - 1)
        && IndexOf(Cached(), page) == k && page > 0
    {
      var b := Bucket(page, hash.Length);
      slot, link, j := Walk(page, b, shape.chains[b]);
      if slot > 0 {
        k := HeldWhere(Links(), shape, page, j);
      } else {
        NotHeld(Links(), shape, page);
        k := 0;
      }
    }

    /** The link of the slot before s in the chain of its bucket. */
    method Predecessor(s: nat, ghost k: nat) returns (link: nat, ghost j: nat)
      requires entries.Length > 0 && hash.Length > 0
      requires k < |shape.order| && s == shape.order[k] < entries.Length
      requires var b := Bucket(entries[s].page, hash.Length);
        b < |shape.chains| && s in shape.chains[b] && Chained(entries[..], shape.chains[b], hash[b])
      ensures At(shape, k, Bucket(entries[s].page, hash.Length), j)
      ensures link == Link(shape.chains[Bucket(entries[s].page, hash.Length)], j - 1)
    {
      ghost var chain := shape.chains[Bucket(entries[s].page, hash.Length)];
      ghost var at :| 0 <= at < |chain| && chain[at] == s;
      var slot := hash[Bucket(entries[s].page, hash.Length)];
      link, j := 0, 0;
      while slot > 0 && slot != s + 1
        invariant j <= at && slot == Link(chain, j) && link == Link(chain, j - 1)
        decreases at - j
      {
        assert NextAt(entries[..], chain, j);
        slot, link, j := entries[slot - 1].hashNext, slot, j + 1;
      }
    }

    // ---- the operations ----

    /** One page less in use. */
    method Subtract()
      requires count > 0
      modifies `used, `count
      ensures count == old(count) - 1
      ensures used == if old(used) >= pageSize then old(used) - pageSize else 0
    {
      used := if used >= pageSize then used - pageSize else 0;
      count := count - 1;
    }

    method Discount()
      requires count > 0 && Accounted()
      modifies `used, `count
      ensures count == old(count) - 1 && Accounted()
    {
      Accounting(count, pageSize, budget);
      Subtract();
    }

    /** Out of the chain and the recency list, onto the free list. */
    method Unlink(s: nat, b: nat, link: nat)
      requires s < entries.Length && b < hash.Length && link <= entries.Length && count > 0 && Accounted()
      requires entries[s].prev <= entries.Length && entries[s].next <= entries.Length
      modifies entries, hash, `lruHead, `lruTail, `freeHead, `used, `count
      ensures Links() == Discarded(old(Links()), b, link, s)
      ensures count == old(count) - 1 && Accounted()
    {
      CutHash(b, link, s);
      CutLru(s);
      Release(s);
      Discount();
    }

    /** The same for the last slot of the recency list, which leaves the list first. */
    method UnlinkLast(s: nat, ghost k: nat) returns (ghost j: nat)
      requires s < entries.Length && hash.Length > 0 && count > 0 && Accounted()
      requires entries[s].prev <= entries.Length && entries[s].next <= entries.Length
      requires k < |shape.order| && s == shape.order[k]
      requires var b := Bucket(entries[s].page, hash.Length);
        b < |shape.chains| && s in shape.chains[b] && NoDup(shape.chains[b]) && ChainOf(b, shape.chains[b])
      modifies entries, hash, `lruHead, `lruTail, `freeHead, `used, `count
      ensures var b := old(Bucket(entries[s].page, hash.Length));
        && At(shape, k, b, j) && Link(shape.chains[b], j - 1) <= entries.Length
        && Links() == Discarded(old(Links()), b, Link(shape.chains[b], j - 1), s)
      ensures count == old(count) - 1 && Accounted()
    {
      j := CutLast(s, k);
      Release(s);
      Discount();
    }

    /** Out of the recency list first and then out of its chain. */
    method CutLast(s: nat, ghost k: nat) returns (ghost j: nat)
      requires s < entries.Length && hash.Length > 0
      requires entries[s].prev <= entries.Length && entries[s].next <= entries.Length
      requires k < |shape.order| && s == shape.order[k]
      requires var b := Bucket(entries[s].page, hash.Length);
        b < |shape.chains| && s in shape.chains[b] && NoDup(shape.chains[b]) && ChainOf(b, shape.chains[b])
      modifies entries, hash, `lruHead, `lruTail
      ensures var b := old(Bucket(entries[s].page, hash.Length));
        && At(shape, k, b, j) && Link(shape.chains[b], j - 1) <= entries.Length
        && Links() == LruCut(HashCut(old(Links()), b, Link(shape.chains[b], j - 1), s), s)
    {
      ghost var p := Links();
      var b := Bucket(entries[s].page, hash.Length);
      CutLru(s);
      ChainedFrame(p.slots, entries[..], shape.chains[b], hash[b]);
      var link;
      link, j := Predecessor(s, k);
      if link > 0 { assert NextAt(p.slots, shape.chains[b], j - 1); }
      CutsCommute(p, b, link, s);
      CutHash(b, link, s);
    }

    method Discard(s: nat, b: nat, link: nat, ghost k: nat, ghost j: nat)
      requires Valid() && budget > 0
      requires At(shape, k, b, j) && s == shape.order[k] && link == Link(shape.chains[b], j - 1)
      modifies this, entries, hash
      ensures Valid() && unchanged(`budget, `entries, `hash)
      ensures Cached() == Without(old(Cached()), k)
    {
      ghost var p, g := Links(), shape;
      DiscardBounds(p, g, k, b, j);
      Unlink(s, b, link);
      DiscardWf(p, g, k, b, j);
      shape := DiscardShape(g, k, b, j);
    }

    /** Evict the least recently used page. */
    method EvictLru() returns (slot: nat)
      requires Valid() && budget > 0
      modifies this, entries, hash
      ensures Valid() && unchanged(`budget, `entries, `hash)
      ensures slot > 0 <==> old(Cached()) != []
      ensures Cached() == if slot > 0 then old(Cached())[..|old(Cached())| - 1] else []
      ensures slot > 0 ==> freeHead == slot
    {
      slot := lruTail;
      if slot == 0 {
        return;
      }
      DropLast(slot - 1);
    }

    /** The last slot of the recency list is freed. */
    method DropLast(s: nat)
      requires Valid() && budget > 0 && lruTail == s + 1
      modifies this, entries, hash
      ensures Valid() && unchanged(`budget, `entries, `hash) && freeHead == s + 1
      ensures old(Cached()) != [] && Cached() == old(Cached())[..|old(Cached())| - 1]
    {
      ghost var p, g, k := Links(), shape, count - 1;
      LastSlot(p, g);
      ghost var b := Bucket(p.slots[s].page, |p.hash|);
      ghost var j := UnlinkLast(s, k);
      DiscardLast(p, g, k, b, j);
      shape := DiscardShape(g, k, b, j);
    }

    /** Move slot s to the front of the recency list unless it is there. */
    method MoveFront(s: nat, ghost k: nat)
      requires Valid() && budget > 0 && k < |shape.order| && s == shape.order[k]
      modifies this, entries
      ensures Valid() && unchanged(`budget, `entries, `hash)
      ensures Cached() == [old(Cached())[k]] + Without(old(Cached()), k)
    {
      ghost var p, g := Links(), shape;
      LinkedBounds(p.slots, g.order, p.head, p.tail, k);
      if lruHead == s + 1 {
        FirstSlot(p, g, k);
      } else {
        Relink(s);
        MoveWf(p, g, k);
        shape := FrontShape(g, k);
      }
    }

    method Relink(s: nat)
      requires s < entries.Length && entries[s].prev <= entries.Length && entries[s].next <= entries.Length &&
        lruHead <= entries.Length
      modifies entries, `lruHead, `lruTail
      ensures Links() == MovedFront(old(Links()), s)
    {
      CutLru(s);
      PushLru(s);
    }

    /** Look a page up; a hit becomes the most recently used page. */
    method Lookup(page: nat) returns (out: Option<P>)
      requires Valid()
      modifies this, entries
      ensures Valid() && unchanged(`budget, `entries, `hash)
      ensures Cached() == Touched(old(Cached()), page)
      ensures out == if Has(old(Cached()), page) then Some(old(Cached())[IndexOf(old(Cached()), page)].1) else None
    {
      if budget == 0 {
        return None;
      }
      var slot, link, k, j := Find(page);
      if slot == 0 {
        return None;
      }
      out := entries[slot - 1].data;
      assert out == Some(Cached()[k].1) by {
        assert Cached()[k] == EntryAt(Links(), shape, k);
        assert shape.order[k] in shape.order;
      }
      MoveFront(slot - 1, k);
    }

    method Contains(page: nat) returns (yes: bool)
      requires Valid()
      ensures yes <==> Has(Cached(), page)
    {
      if budget == 0 {
        return false;
      }
      var slot, link, k, j := Find(page);
      yes := slot > 0;
    }

    /** Drop a page whose bytes were superseded. */
    method Remove(page: nat)
      requires Valid()
      modifies this, entries, hash
      ensures Valid() && unchanged(`budget, `entries, `hash)
      ensures Cached() == Removed(old(Cached()), page)
    {
      if budget == 0 || page == 0 {
        if budget > 0 { NoPageZero(Links(), shape); }
        return;
      }
      var slot, link, k, j := Find(page);
      if slot == 0 {
        return;
      }
      Discard(slot - 1, Bucket(page, hash.Length), link, k, j);
    }

    /** Take a free slot for a page the cache does not hold. */
    method Insert(page: nat, data: P)
      requires Valid() && budget > 0 && page > 0 && freeHead > 0
      requires forall s :: s in shape.order ==> s < entries.Length && entries[s].page != page
      requires WithinBudget(count + 1, pageSize, budget)
      modifies this, entries, hash
      ensures Valid() && unchanged(`budget, `entries, `hash)
      ensures Cached() == [(page, data)] + old(Cached())
    {
      ghost var p, g := Links(), shape;
      FreeSlot(p, g);
      TakeSlot(page, data);
      InsertWf(p, g, page, data);
      Accounting(count, pageSize, budget);
      shape := InsertShape(g, Bucket(page, |p.hash|));
    }

    method TakeSlot(page: nat, data: P)
      requires 0 < freeHead <= entries.Length && hash.Length > 0 && lruHead <= entries.Length
      modifies entries, hash, `lruHead, `lruTail, `freeHead, `used, `count
      ensures Links() == Inserted(old(Links()), page, data)
      ensures count == old(count) + 1 && used == old(used) + pageSize
    {
      ghost var p := Links();
      var s := freeHead - 1;
      freeHead := entries[s].hashNext;
      var b := Bucket(page, hash.Length);
      entries[s] := entries[s].(page := page, data := Some(data), hashNext := hash[b]);
      hash[b] := s + 1;
      assert Links() == Fill(p, page, data);
      PushLru(s);
      used := used + pageSize;
      count := count + 1;
    }

    method Overwrite(s: nat, data: P, ghost k: nat)
      requires Valid() && budget > 0 && k < |shape.order| && s == shape.order[k]
      modifies entries
      ensures Valid()
      ensures Cached() == old(Cached())[k := (old(Cached())[k].0, data)]
    {
      ghost var p := Links();
      LinkedBounds(p.slots, shape.order, p.head, p.tail, k);
      entries[s] := entries[s].(data := Some(data));
      assert Links() == Overwritten(p, s, data);
      OverwriteWf(p, shape, k, data);
    }

    /** Evict one page of what is left of a list. */
    method DropOne(ghost before: Entries<P>)
      requires Valid() && budget > 0 && 0 < count <= |before| && Cached() == before[..count]
      modifies this, entries, hash
      ensures Valid() && unchanged(`budget, `entries, `hash)
      ensures count == old(count) - 1 && Cached() == before[..count]
    {
      ghost var n := count;
      var slot := EvictLru();
      assert before[..n][..n - 1] == before[..n - 1];
    }

    /** Evict the least recently used pages until one more page fits the budget. */
    method FitBudget()
      requires Valid() && budget > 0
      modifies this, entries, hash
      ensures Valid() && unchanged(`budget, `entries, `hash)
      ensures Cached() == old(Cached())[..Shrink(|old(Cached())|, pageSize, budget)]
    {
      ghost var before := Cached();
      while count > 0 && used + pageSize > budget
        invariant Valid() && unchanged(`budget, `entries, `hash)
        invariant count <= |before| && Cached() == before[..count]
        invariant Shrink(count, pageSize, budget) == Shrink(|before|, pageSize, budget)
        decreases count
      {
        DropOne(before);
      }
    }

    /** ... and a slot is free. */
    method MakeRoom()
      requires Valid() && budget > 0
      modifies this, entries, hash
      ensures Valid() && unchanged(`budget, `entries, `hash) && freeHead > 0
      ensures |old(Cached())| <= entries.Length
      ensures Cached() == old(Cached())[..Kept(|old(Cached())|, pageSize, budget, entries.Length)]
    {
      ghost var before := Cached();
      Capacity(Links(), shape);
      FitBudget();
      ghost var n := |Cached()|;
      Capacity(Links(), shape);
      if freeHead == 0 && lruTail != 0 {
        var slot := EvictLru();
        assert before[..n][..n - 1] == before[..n - 1];
      }
    }

    /** Replace the bytes of a held page and make it the most recently used. */
    method Refresh(s: nat, page: nat, data: P, ghost k: nat)
      requires Valid() && budget > 0 && k < |shape.order| && s == shape.order[k] && HasAt(Cached(), page, k)
      modifies this, entries
      ensures Valid() && unchanged(`budget, `entries, `hash)
      ensures Cached() == [(page, data)] + Without(old(Cached()), k)
    {
      ghost var before := Cached();
      Overwrite(s, data, k);
      Refreshed(before, page, data, k, Links(), shape);
      var out := Lookup(page);
    }

    /** Store a page the cache does not hold, evicting what must go. */
    method Admit(page: nat, data: P)
      requires Valid() && budget > 0 && page > 0 && !Has(Cached(), page)
      modifies this, entries, hash
      ensures Valid() && unchanged(`budget, `entries, `hash)
      ensures |old(Cached())| <= entries.Length && entries.Length > 0
      ensures Cached() == [(page, data)] + old(Cached())[..Kept(|old(Cached())|, pageSize, budget, entries.Length)]
    {
      ghost var before := Cached();
      ContentsDistinct(Links(), shape);
      MakeRoom();
      KeptFits(|before|, pageSize, budget, entries.Length);
      TakeKeeps(before, page, count);
      StillAbsent(Links(), shape, page);
      Insert(page, data);
    }

    /** Store a page: strict least-recently-used eviction until the budget fits. */
    method Store(page: nat, data: P)
      requires Valid()
      modifies this, entries, hash
      ensures Valid() && unchanged(`budget, `entries, `hash)
      ensures budget == 0 || page == 0 ==> Cached() == old(Cached())
      ensures budget > 0 ==> |old(Cached())| <= entries.Length && entries.Length > 0
      ensures budget > 0 && page > 0 ==>
        Cached() == Stored(old(Cached()), page, data, pageSize, budget, entries.Length)
    {
      if budget > 0 { Capacity(Links(), shape); }
      if budget == 0 || page == 0 {
        return;
      }
      var slot, link, k, j := Find(page);
      if slot > 0 {
        Refresh(slot - 1, page, data, k);
      } else {
        Admit(page, data);
      }
    }
  }
}
