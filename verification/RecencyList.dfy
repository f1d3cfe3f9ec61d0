/**
 The page cache as an abstract value: pages with their bytes, most recently used first.
 What the cache's slot array has to implement, and what "strict LRU under a budget" means.
 */
module RecencyList {

  /** Pages and their bytes, most recently used first. */
  type Entries<P> = seq<(nat, P)>

  ghost function Pages<P>(l: Entries<P>): seq<nat> {
    seq(|l|, i requires 0 <= i < |l| => l[i].0)
  }

  ghost predicate Distinct<P>(l: Entries<P>) {
    forall i, j :: 0 <= i < j < |l| ==> l[i].0 != l[j].0
  }

  ghost predicate HasAt<P>(l: Entries<P>, page: nat, i: nat) {
    i < |l| && l[i].0 == page
  }

  ghost predicate Has<P>(l: Entries<P>, page: nat) {
    exists i :: HasAt(l, page, i)
  }

  ghost function IndexOf<P>(l: Entries<P>, page: nat): (i: nat)
    requires Has(l, page)
    ensures HasAt(l, page, i)
  {
    var i :| HasAt(l, page, i);
    i
  }

  ghost function Without<T>(l: seq<T>, i: nat): seq<T>
    requires i < |l|
  {
    l[..i] + l[i + 1..]
  }

  /** A hit moves the page to the front; a miss changes nothing. */
  ghost function Touched<P>(l: Entries<P>, page: nat): Entries<P> {
    if Has(l, page) then var i := IndexOf(l, page); [l[i]] + Without(l, i) else l
  }

  ghost function Removed<P>(l: Entries<P>, page: nat): Entries<P> {
    if Has(l, page) then Without(l, IndexOf(l, page)) else l
  }

  /** How many of n entries stay when one more page is to fit the budget. */
  function Shrink(n: nat, pageSize: nat, budget: nat): (kept: nat)
    ensures kept <= n
  {
    if n > 0 && n * pageSize + pageSize > budget then Shrink(n - 1, pageSize, budget) else n
  }

  /** No more pages go than have to. */
  lemma {:induction false} ShrinkFits(n: nat, pageSize: nat, budget: nat)
    ensures var kept := Shrink(n, pageSize, budget);
      && (kept == 0 || kept * pageSize + pageSize <= budget)
      && (kept < n ==> (kept + 1) * pageSize + pageSize > budget)
  {
    if n > 0 && n * pageSize + pageSize > budget {
      ShrinkFits(n - 1, pageSize, budget);
    }
  }

  /** ... and a slot has to be free as well. */
  function Kept(n: nat, pageSize: nat, budget: nat, capacity: nat): (kept: nat)
    requires n <= capacity && capacity > 0
    ensures kept <= n && kept < capacity
  {
    var k := Shrink(n, pageSize, budget);
    if k == capacity then k - 1 else k
  }

  ghost function Stored<P>(l: Entries<P>, page: nat, data: P, pageSize: nat, budget: nat, capacity: nat): Entries<P>
    requires |l| <= capacity && capacity > 0
  {
    if Has(l, page) then [(page, data)] + Without(l, IndexOf(l, page))
    else [(page, data)] + l[..Kept(|l|, pageSize, budget, capacity)]
  }

  // ---- what the operations guarantee ----

  /** Within budget, except that a single page may exceed it. */
  ghost predicate WithinBudget(n: nat, pageSize: nat, budget: nat) {
    n <= 1 || n * pageSize <= budget
  }

  /** Pages in the order they were last used, evicted ones included. */
  ghost function Recent(history: seq<nat>, page: nat): seq<nat>
    decreases |history|
  {
    [page] + Forget(history, page)
  }

  ghost function Forget(history: seq<nat>, page: nat): seq<nat>
    decreases |history|
  {
    if history == [] then []
    else if history[0] == page then Forget(history[1..], page)
    else [history[0]] + Forget(history[1..], page)
  }

  /** The cache holds the most recently used pages of a history: exactly its first |l| pages. */
  ghost predicate MostRecent<P>(l: Entries<P>, history: seq<nat>) {
    Distinct(l) && Pages(l) <= history
  }

  lemma {:induction false} ForgetAppend(a: seq<nat>, b: seq<nat>, page: nat)
    ensures Forget(a + b, page) == Forget(a, page) + Forget(b, page)
    decreases |a|
  {
    if a == [] {
      assert a + b == b;
    } else {
      assert (a + b)[1..] == a[1..] + b;
      ForgetAppend(a[1..], b, page);
    }
  }

  lemma {:induction false} ForgetAbsent(a: seq<nat>, page: nat)
    requires page !in a
    ensures Forget(a, page) == a
    decreases |a|
  {
    if a != [] {
      ForgetAbsent(a[1..], page);
    }
  }

  lemma ForgetBeyond(a: seq<nat>, page: nat, rest: seq<nat>)
    requires page !in a
    ensures Forget(a + rest, page) == a + Forget(rest, page)
  {
    ForgetAppend(a, rest, page);
    ForgetAbsent(a, page);
  }

  /** Forgetting a page that occurs once among the first ones drops it from there and nothing else. */
  lemma ForgetOne(a: seq<nat>, b: seq<nat>, page: nat, rest: seq<nat>)
    requires page !in a && page !in b
    ensures Forget(a + [page] + b + rest, page) == a + b + Forget(rest, page)
  {
    assert a + [page] + b + rest == a + ([page] + (b + rest));
    ForgetBeyond(a, page, [page] + (b + rest));
    assert ([page] + (b + rest))[1..] == b + rest;
    ForgetBeyond(b, page, rest);
  }

  lemma PagesWithout<P>(l: Entries<P>, i: nat)
    requires Distinct(l) && i < |l|
    ensures Pages(Without(l, i)) == Pages(l[..i]) + Pages(l[i + 1..])
    ensures Pages(l) == Pages(l[..i]) + [l[i].0] + Pages(l[i + 1..])
    ensures l[i].0 !in Pages(l[..i]) && l[i].0 !in Pages(l[i + 1..])
  {
  }

  lemma DistinctWithout<P>(l: Entries<P>, i: nat)
    requires Distinct(l) && i < |l|
    ensures Distinct(Without(l, i)) && !Has(Without(l, i), l[i].0)
  {
  }

  lemma NotHas<P>(l: Entries<P>, page: nat)
    requires !Has(l, page)
    ensures forall i :: 0 <= i < |l| ==> l[i].0 != page
    ensures page !in Pages(l)
  {
    forall i | 0 <= i < |l| ensures l[i].0 != page {
      assert !HasAt(l, page, i);
    }
  }

  lemma DistinctFront<P>(page: nat, data: P, l: Entries<P>)
    requires Distinct(l) && !Has(l, page)
    ensures Distinct([(page, data)] + l) && Pages([(page, data)] + l) == [page] + Pages(l)
  {
    NotHas(l, page);
  }

  lemma ForgetHeld<P>(l: Entries<P>, history: seq<nat>, i: nat)
    requires MostRecent(l, history) && i < |l|
    ensures Pages(Without(l, i)) <= Forget(history, l[i].0)
  {
    PagesWithout(l, i);
    var rest := history[|l|..];
    assert history == Pages(l) + rest;
    ForgetOne(Pages(l[..i]), Pages(l[i + 1..]), l[i].0, rest);
  }

  lemma ForgetUnheld<P>(l: Entries<P>, history: seq<nat>, page: nat)
    requires MostRecent(l, history) && !Has(l, page)
    ensures Pages(l) <= Forget(history, page)
  {
    NotHas(l, page);
    assert history == Pages(l) + history[|l|..];
    ForgetBeyond(Pages(l), page, history[|l|..]);
  }

  lemma IndexUnique<P>(l: Entries<P>, page: nat, i: nat)
    requires Distinct(l) && HasAt(l, page, i)
    ensures Has(l, page) && IndexOf(l, page) == i
  {
  }

  /** A hit keeps the cache the most recent part of the history. */
  lemma TouchKeepsRecent<P>(l: Entries<P>, history: seq<nat>, page: nat)
    requires MostRecent(l, history) && Has(l, page)
    ensures MostRecent(Touched(l, page), Recent(history, page))
  {
    var i := IndexOf(l, page);
    ForgetHeld(l, history, i);
    DistinctWithout(l, i);
    DistinctFront(page, l[i].1, Without(l, i));
    assert l[i] == (page, l[i].1);
  }

  lemma RemoveKeepsRecent<P>(l: Entries<P>, history: seq<nat>, page: nat)
    requires MostRecent(l, history)
    ensures MostRecent(Removed(l, page), Forget(history, page)) && !Has(Removed(l, page), page)
  {
    if Has(l, page) {
      ForgetHeld(l, history, IndexOf(l, page));
      DistinctWithout(l, IndexOf(l, page));
    } else {
      ForgetUnheld(l, history, page);
    }
  }

  lemma TakeKeeps<P>(l: Entries<P>, page: nat, n: nat)
    requires Distinct(l) && n <= |l|
    ensures Distinct(l[..n]) && Pages(l[..n]) <= Pages(l)
    ensures !Has(l, page) ==> !Has(l[..n], page)
  {
    forall i | HasAt(l[..n], page, i) ensures HasAt(l, page, i) {
    }
  }

  /** Storing evicts exactly the least recently used pages, and keeps the budget. */
  lemma StoreKeepsRecent<P>(l: Entries<P>, history: seq<nat>, page: nat, data: P, pageSize: nat, budget: nat,
          capacity: nat)
    requires MostRecent(l, history) && |l| <= capacity && capacity > 0
    requires WithinBudget(|l|, pageSize, budget)
    ensures var after := Stored(l, page, data, pageSize, budget, capacity);
      && MostRecent(after, Recent(history, page))
      && 1 <= |after| <= capacity
      && WithinBudget(|after|, pageSize, budget)
      && after[0] == (page, data)
  {
    if Has(l, page) {
      var i := IndexOf(l, page);
      ForgetHeld(l, history, i);
      DistinctWithout(l, i);
      DistinctFront(page, data, Without(l, i));
    } else {
      var kept := l[..Kept(|l|, pageSize, budget, capacity)];
      KeptFits(|l|, pageSize, budget, capacity);
      ForgetUnheld(l, history, page);
      TakeKeeps(l, page, |kept|);
      DistinctFront(page, data, kept);
    }
  }

  lemma KeptFits(n: nat, pageSize: nat, budget: nat, capacity: nat)
    requires n <= capacity && capacity > 0
    ensures WithinBudget(Kept(n, pageSize, budget, capacity) + 1, pageSize, budget)
  {
    var k := Shrink(n, pageSize, budget);
    ShrinkFits(n, pageSize, budget);
    assert (k + 1) * pageSize == k * pageSize + pageSize;
    if k == capacity {
      assert k * pageSize <= (k + 1) * pageSize;
    }
  }

  /** The operations bring in no entry but the one stored. */
  lemma StoredFrom<P>(l: Entries<P>, page: nat, data: P, pageSize: nat, budget: nat, capacity: nat)
    requires |l| <= capacity && capacity > 0
    ensures forall e :: e in Stored(l, page, data, pageSize, budget, capacity) ==> e == (page, data) || e in l
  {
  }

  lemma TouchedFrom<P>(l: Entries<P>, page: nat)
    ensures forall e :: e in Touched(l, page) ==> e in l
  {
  }

  lemma RemovedFrom<P>(l: Entries<P>, page: nat)
    requires Distinct(l)
    ensures forall e :: e in Removed(l, page) ==> e in l && e.0 != page
  {
    if Has(l, page) {
      DistinctWithout(l, IndexOf(l, page));
      NotHas(Without(l, IndexOf(l, page)), page);
    } else {
      NotHas(l, page);
    }
  }

  // ---- whole runs ----

  datatype Use<P> = Look(page: nat) | Put(page: nat, data: P) | Drop(page: nat)

  /** The cache after one use. */
  ghost function AfterUse<P>(l: Entries<P>, use: Use<P>, pageSize: nat, budget: nat, capacity: nat): (r: Entries<P>)
    requires |l| <= capacity && capacity > 0
    ensures |r| <= capacity
  {
    match use
    case Look(page) => Touched(l, page)
    case Put(page, data) => Stored(l, page, data, pageSize, budget, capacity)
    case Drop(page) => Removed(l, page)
  }

  ghost function Cached<P>(uses: seq<Use<P>>, pageSize: nat, budget: nat, capacity: nat): (l: Entries<P>)
    requires capacity > 0
    ensures |l| <= capacity
    decreases |uses|
  {
    if uses == [] then []
    else
      AfterUse(Cached(uses[..|uses| - 1], pageSize, budget, capacity), uses[|uses| - 1], pageSize, budget, capacity)
  }

  /** The order of use after one more; a miss is no use. */
  ghost function OrderAfter<P>(l: Entries<P>, order: seq<nat>, use: Use<P>): seq<nat> {
    match use
    case Look(page) => if Has(l, page) then Recent(order, page) else order
    case Put(page, data) => Recent(order, page)
    case Drop(page) => Forget(order, page)
  }

  /** Every page ever stored and not dropped, by its last use. */
  ghost function UseOrder<P>(uses: seq<Use<P>>, pageSize: nat, budget: nat, capacity: nat): seq<nat>
    requires capacity > 0
    decreases |uses|
  {
    if uses == [] then []
    else
      var before := uses[..|uses| - 1];
      OrderAfter(Cached(before, pageSize, budget, capacity), UseOrder(before, pageSize, budget, capacity),
                 uses[|uses| - 1])
  }

  /** The bytes each page was last stored with, unless dropped since. */
  ghost function LastBytes<P>(uses: seq<Use<P>>): map<nat, P>
    decreases |uses|
  {
    if uses == [] then map[]
    else
      var last := LastBytes(uses[..|uses| - 1]);
      match uses[|uses| - 1]
      case Look(page) => last
      case Put(page, data) => last[page := data]
      case Drop(page) => last - {page}
  }

  ghost predicate Current<P>(l: Entries<P>, last: map<nat, P>) {
    forall i :: 0 <= i < |l| ==> l[i].0 in last && last[l[i].0] == l[i].1
  }

  lemma CurrentStep<P>(l: Entries<P>, last: map<nat, P>, use: Use<P>, pageSize: nat, budget: nat, capacity: nat)
    requires Current(l, last) && Distinct(l) && |l| <= capacity && capacity > 0
    ensures match use
      case Look(page) => Current(Touched(l, page), last)
      case Put(page, data) => Current(Stored(l, page, data, pageSize, budget, capacity), last[page := data])
      case Drop(page) => Current(Removed(l, page), last - {page})
  {
    if Has(l, use.page) {
      DistinctWithout(l, IndexOf(l, use.page));
      NotHas(Without(l, IndexOf(l, use.page)), use.page);
    } else {
      NotHas(l, use.page);
    }
  }

  lemma RecentStep<P>(l: Entries<P>, order: seq<nat>, use: Use<P>, pageSize: nat, budget: nat, capacity: nat)
    requires MostRecent(l, order) && WithinBudget(|l|, pageSize, budget) && |l| <= capacity && capacity > 0
    ensures MostRecent(AfterUse(l, use, pageSize, budget, capacity), OrderAfter(l, order, use))
    ensures WithinBudget(|AfterUse(l, use, pageSize, budget, capacity)|, pageSize, budget)
  {
    match use {
      case Look(page) => if Has(l, page) { TouchKeepsRecent(l, order, page); }
      case Put(page, data) => StoreKeepsRecent(l, order, page, data, pageSize, budget, capacity);
      case Drop(page) => RemoveKeepsRecent(l, order, page); FewerFit(|l|, pageSize, budget);
    }
  }

  /**
   After any run of lookups, stores and drops the cache holds exactly the most recently used
   pages, with the bytes last stored for them, and stays within its budget.
   */
  lemma {:induction false} StrictLru<P>(uses: seq<Use<P>>, pageSize: nat, budget: nat, capacity: nat)
    requires capacity > 0
    ensures var l := Cached(uses, pageSize, budget, capacity);
      && MostRecent(l, UseOrder(uses, pageSize, budget, capacity))
      && Current(l, LastBytes(uses))
      && WithinBudget(|l|, pageSize, budget)
    decreases |uses|
  {
    if uses != [] {
      var before, use := uses[..|uses| - 1], uses[|uses| - 1];
      var l, order := Cached(before, pageSize, budget, capacity), UseOrder(before, pageSize, budget, capacity);
      StrictLru(before, pageSize, budget, capacity);
      CurrentStep(l, LastBytes(before), use, pageSize, budget, capacity);
      RecentStep(l, order, use, pageSize, budget, capacity);
    }
  }

  lemma FewerFit(n: nat, pageSize: nat, budget: nat)
    requires WithinBudget(n, pageSize, budget)
    ensures n > 0 ==> WithinBudget(n - 1, pageSize, budget)
  {
    if n > 0 {
      assert (n - 1) * pageSize + pageSize == n * pageSize;
    }
  }
}
