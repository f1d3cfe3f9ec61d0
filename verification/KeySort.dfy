/** Sorting slot numbers by key: a bottom-up merge sort through a buffer, and a search in the result. */
module KeySort {

  // ---- the order of keys ----

  /** Byte order, as strcmp gives it. */
  function Compare(a: string, b: string): int {
    if a == [] then if b == [] then 0 else -1
    else if b == [] then 1
    else if a[0] < b[0] then -1
    else if a[0] > b[0] then 1
    else Compare(a[1..], b[1..])
  }

  predicate Leq(a: string, b: string) {
    Compare(a, b) <= 0
  }

  lemma {:induction false} CompareOpposite(a: string, b: string)
    ensures Compare(a, b) == -Compare(b, a)
    ensures Compare(a, b) == 0 <==> a == b
  {
    if a != [] && b != [] {
      CompareOpposite(a[1..], b[1..]);
      assert a == [a[0]] + a[1..] && b == [b[0]] + b[1..];
    }
  }

  lemma {:induction false} LeqTransitive(a: string, b: string, c: string)
    requires Leq(a, b) && Leq(b, c)
    ensures Leq(a, c)
  {
    if a != [] && b != [] && c != [] && a[0] == b[0] == c[0] {
      LeqTransitive(a[1..], b[1..], c[1..]);
    }
  }

  // ---- merging ----

  function KeyAt(keys: seq<string>, x: nat): string {
    if x < |keys| then keys[x] else ""
  }

  predicate Before(keys: seq<string>, x: nat, y: nat) {
    Leq(KeyAt(keys, x), KeyAt(keys, y))
  }

  lemma BeforeLaws(keys: seq<string>, x: nat, y: nat, z: nat)
    ensures Before(keys, x, y) || Before(keys, y, x)
    ensures Before(keys, x, y) && Before(keys, y, z) ==> Before(keys, x, z)
  {
    CompareOpposite(KeyAt(keys, x), KeyAt(keys, y));
    if Before(keys, x, y) && Before(keys, y, z) {
      LeqTransitive(KeyAt(keys, x), KeyAt(keys, y), KeyAt(keys, z));
    }
  }

  /** The i-th slot of a is before the j-th of b. */
  ghost predicate Pair(keys: seq<string>, a: seq<nat>, i: nat, b: seq<nat>, j: nat) {
    i < |a| && j < |b| && Before(keys, a[i], b[j])
  }

  ghost predicate Sorted(keys: seq<string>, s: seq<nat>) {
    forall i, j :: 0 <= i < j < |s| ==> Pair(keys, s, i, s, j)
  }

  /** Everything in a is before everything in b. */
  ghost predicate AllBefore(keys: seq<string>, a: seq<nat>, b: seq<nat>) {
    forall i, j :: 0 <= i < |a| && 0 <= j < |b| ==> Pair(keys, a, i, b, j)
  }

  /** What was merged so far is sorted and comes before the sorted rests of both runs. */
  ghost predicate Merging(keys: seq<string>, made: seq<nat>, a: seq<nat>, b: seq<nat>) {
    Sorted(keys, made) && Sorted(keys, a) && Sorted(keys, b) && AllBefore(keys, made, a) && AllBefore(keys, made, b)
  }

  lemma FrontBefore(keys: seq<string>, x: nat, s: seq<nat>)
    requires Sorted(keys, s) && s != [] && Before(keys, x, s[0])
    ensures AllBefore(keys, [x], s)
  {
    forall i, j | 0 <= i < 1 && 0 <= j < |s| ensures Pair(keys, [x], i, s, j) {
      if j > 0 {
        assert Pair(keys, s, 0, s, j);
        BeforeLaws(keys, x, s[0], s[j]);
      }
    }
  }

  lemma AddLast(keys: seq<string>, made: seq<nat>, x: nat)
    requires Sorted(keys, made) && AllBefore(keys, made, [x])
    ensures Sorted(keys, made + [x])
  {
    forall i, j | 0 <= i < j < |made + [x]| ensures Pair(keys, made + [x], i, made + [x], j) {
      if j < |made| {
        assert Pair(keys, made, i, made, j);
      } else {
        assert Pair(keys, made, i, [x], 0);
      }
    }
  }

  lemma AddBefore(keys: seq<string>, made: seq<nat>, x: nat, rest: seq<nat>)
    requires AllBefore(keys, made, rest) && AllBefore(keys, [x], rest)
    ensures AllBefore(keys, made + [x], rest)
  {
    forall i, j | 0 <= i < |made + [x]| && 0 <= j < |rest| ensures Pair(keys, made + [x], i, rest, j) {
      if i < |made| {
        assert Pair(keys, made, i, rest, j);
      } else {
        assert Pair(keys, [x], 0, rest, j);
      }
    }
  }

  lemma SplitFront(keys: seq<string>, made: seq<nat>, s: seq<nat>)
    requires s != [] && Sorted(keys, s) && AllBefore(keys, made, s)
    ensures Sorted(keys, s[1..]) && AllBefore(keys, [s[0]], s[1..])
    ensures AllBefore(keys, made, [s[0]]) && AllBefore(keys, made, s[1..])
  {
    forall i, j | 0 <= i < j < |s[1..]| ensures Pair(keys, s[1..], i, s[1..], j) {
      assert Pair(keys, s, i + 1, s, j + 1);
    }
    forall i, j | 0 <= i < 1 && 0 <= j < |s[1..]| ensures Pair(keys, [s[0]], i, s[1..], j) {
      assert Pair(keys, s, 0, s, j + 1);
    }
    forall i, j | 0 <= i < |made| && 0 <= j < 1 ensures Pair(keys, made, i, [s[0]], j) {
      assert Pair(keys, made, i, s, 0);
    }
    forall i, j | 0 <= i < |made| && 0 <= j < |s[1..]| ensures Pair(keys, made, i, s[1..], j) {
      assert Pair(keys, made, i, s, j + 1);
    }
  }

  /** The smaller front moves over. */
  lemma TakeFront(keys: seq<string>, made: seq<nat>, a: seq<nat>, b: seq<nat>)
    requires Merging(keys, made, a, b) && a != [] && b != [] && Before(keys, a[0], b[0])
    ensures Merging(keys, made + [a[0]], a[1..], b)
  {
    SplitFront(keys, made, a);
    FrontBefore(keys, a[0], b);
    AddLast(keys, made, a[0]);
    AddBefore(keys, made, a[0], a[1..]);
    AddBefore(keys, made, a[0], b);
  }

  lemma AppendRest(keys: seq<string>, made: seq<nat>, a: seq<nat>)
    requires Sorted(keys, made) && Sorted(keys, a) && AllBefore(keys, made, a)
    ensures Sorted(keys, made + a)
  {
    forall i, j | 0 <= i < j < |made + a| ensures Pair(keys, made + a, i, made + a, j) {
      if j < |made| {
        assert Pair(keys, made, i, made, j);
      } else if i < |made| {
        assert Pair(keys, made, i, a, j - |made|);
      } else {
        assert Pair(keys, a, i - |made|, a, j - |made|);
      }
    }
  }

  // ---- blocks ----

  function End(from: nat, width: nat, n: nat): (e: nat)
    ensures e <= n
    ensures from <= n ==> from <= e
  {
    if from + width > n then n else from + width
  }

  /** The block of a width from a position on is sorted. */
  ghost predicate BlockAt(keys: seq<string>, s: seq<nat>, start: nat, width: nat)
    requires start <= |s|
  {
    Sorted(keys, s[start..End(start, width, |s|)])
  }

  /** All blocks of a width up to, or from, a position. */
  ghost predicate BlocksBefore(keys: seq<string>, s: seq<nat>, left: nat, width: nat)
    requires width > 0
  {
    forall start {:trigger BlockAt(keys, s, start, width)} ::
      0 <= start < left && start <= |s| && start % width == 0 ==> BlockAt(keys, s, start, width)
  }

  ghost predicate BlocksFrom(keys: seq<string>, s: seq<nat>, left: nat, width: nat)
    requires width > 0
  {
    forall start {:trigger BlockAt(keys, s, start, width)} :: left <= start <= |s| && start % width == 0 ==>
      BlockAt(keys, s, start, width)
  }

  lemma UnitBlocks(keys: seq<string>, s: seq<nat>)
    ensures BlocksFrom(keys, s, 0, 1)
  {
  }

  /** One block that is wide enough is the whole. */
  lemma WholeBlock(keys: seq<string>, s: seq<nat>, width: nat)
    requires width > 0 && |s| <= width && BlocksFrom(keys, s, 0, width)
    ensures Sorted(keys, s)
  {
    assert BlockAt(keys, s, 0, width);
    assert s[0..End(0, width, |s|)] == s;
  }

  lemma {:induction false} MulAtLeast(d: nat, a: nat, b: nat)
    requires a < b
    ensures d * a + d <= d * b
    decreases b
  {
    MulNext(d, b - 1);
    if a < b - 1 {
      MulAtLeast(d, a, b - 1);
    }
  }

  lemma MulNext(d: nat, a: nat)
    ensures d * (a + 1) == d * a + d
  {
  }

  /** Multiples of d are at least d apart. */
  lemma Multiples(d: nat, x: nat, y: nat)
    requires d > 0 && x % d == 0 && y % d == 0 && x < y
    ensures x + d <= y
  {
    var a, b := x / d, y / d;
    assert x == d * a && y == d * b;
    if b <= a {
      if b < a { MulAtLeast(d, b, a); }
      assert false;
    }
    MulAtLeast(d, a, b);
  }

  lemma NextMultiple(d: nat, x: nat)
    requires d > 0 && x % d == 0
    ensures (x + d) % d == 0
  {
    var a := x / d;
    assert x + d == d * (a + 1);
    MultipleIs(d, a + 1);
  }

  lemma {:induction false} MultipleIs(d: nat, a: nat)
    requires d > 0
    ensures d * a % d == 0
  {
    var q := d * a;
    assert q == d * (q / d) + q % d;
    if q / d < a {
      MulAtLeast(d, q / d, a);
    } else if q / d > a {
      MulAtLeast(d, a, q / d);
    }
  }

  lemma HalfMultiple(d: nat, x: nat)
    requires d > 0 && x % (2 * d) == 0
    ensures x % d == 0
  {
    var a := x / (2 * d);
    Quotient(2 * d, x);
    Rearranged(d, a);
    MultipleIs(d, 2 * a);
  }

  lemma Quotient(m: nat, x: nat)
    requires m > 0 && x % m == 0
    ensures x == m * (x / m)
  {
    assert x == m * (x / m) + x % m;
  }

  lemma Rearranged(d: nat, a: nat)
    ensures (2 * d) * a == d * (2 * a)
  {
  }

  /** t is s with the stretch from `left` to `right` sorted. */
  ghost predicate SortedAt(keys: seq<string>, s: seq<nat>, t: seq<nat>, left: nat, right: nat) {
    && left <= right <= |s| == |t| && t[..left] == s[..left] && t[right..] == s[right..]
    && Sorted(keys, t[left..right])
  }

  lemma KeptBefore(s: seq<nat>, t: seq<nat>, left: nat, a: nat, b: nat)
    requires left <= |s| == |t| && t[..left] == s[..left] && a <= b <= left
    ensures t[a..b] == s[a..b]
  {
    forall i | 0 <= i < b - a ensures t[a..b][i] == s[a..b][i] {
      assert t[..left][a + i] == s[..left][a + i];
    }
  }

  lemma KeptAfter(s: seq<nat>, t: seq<nat>, right: nat, a: nat, b: nat)
    requires right <= |s| == |t| && t[right..] == s[right..] && right <= a <= b <= |s|
    ensures t[a..b] == s[a..b]
  {
    forall i | 0 <= i < b - a ensures t[a..b][i] == s[a..b][i] {
      assert t[right..][a - right + i] == s[right..][a - right + i];
    }
  }

  /** Sorting two neighbouring blocks together moves the boundary between wide and narrow blocks. */
  lemma BlocksStep(keys: seq<string>, s: seq<nat>, t: seq<nat>, left: nat, right: nat, width: nat)
    requires width > 0 && left % (2 * width) == 0 && left <= |s| && right == End(left, 2 * width, |s|)
    requires BlocksBefore(keys, s, left, 2 * width) && BlocksFrom(keys, s, left, width) &&
      SortedAt(keys, s, t, left, right)
    ensures BlocksBefore(keys, t, right, 2 * width) && BlocksFrom(keys, t, right, width)
  {
    forall start | 0 <= start < right && start <= |t| && start % (2 * width) == 0
      ensures BlockAt(keys, t, start, 2 * width) {
      if start < left {
        Multiples(2 * width, start, left);
        assert BlockAt(keys, s, start, 2 * width);
        KeptBefore(s, t, left, start, End(start, 2 * width, |s|));
      } else if start > left {
        Multiples(2 * width, left, start);
      }
    }
    forall start | right <= start <= |t| && start % width == 0 ensures BlockAt(keys, t, start, width) {
      assert BlockAt(keys, s, start, width);
      KeptAfter(s, t, right, start, End(start, width, |s|));
    }
  }

  /** A single block that is left over is a wide block already. */
  lemma BlocksLast(keys: seq<string>, s: seq<nat>, left: nat, width: nat)
    requires width > 0 && left % (2 * width) == 0 && left <= |s| <= left + width
    requires BlocksBefore(keys, s, left, 2 * width) && BlocksFrom(keys, s, left, width)
    ensures BlocksFrom(keys, s, 0, 2 * width)
  {
    HalfMultiple(width, left);
    assert BlockAt(keys, s, left, width);
    forall start | 0 <= start <= |s| && start % (2 * width) == 0 ensures BlockAt(keys, s, start, 2 * width) {
      if start > left {
        Multiples(2 * width, left, start);
      }
    }
  }

  /** The elements made and left are the elements there were. */
  ghost predicate Going(keys: seq<string>, made: seq<nat>, a: seq<nat>, b: seq<nat>, total: multiset<nat>) {
    Merging(keys, made, a, b) && multiset(made) + multiset(a) + multiset(b) == total
  }

  lemma Go(keys: seq<string>, made: seq<nat>, a: seq<nat>, b: seq<nat>, total: multiset<nat>)
    requires Going(keys, made, a, b, total) && a != [] && b != [] && Before(keys, a[0], b[0])
    ensures Going(keys, made + [a[0]], a[1..], b, total)
  {
    assert a == [a[0]] + a[1..];
    TakeFront(keys, made, a, b);
  }

  lemma GoOther(keys: seq<string>, made: seq<nat>, a: seq<nat>, b: seq<nat>, total: multiset<nat>)
    requires Going(keys, made, a, b, total) && a != [] && b != [] && !Before(keys, a[0], b[0])
    ensures Going(keys, made + [b[0]], a, b[1..], total)
  {
    BeforeLaws(keys, a[0], b[0], b[0]);
    assert Going(keys, made, b, a, total);
    Go(keys, made, b, a, total);
  }

  lemma Gone(keys: seq<string>, made: seq<nat>, a: seq<nat>, b: seq<nat>, total: multiset<nat>)
    requires Going(keys, made, a, b, total) && (a == [] || b == [])
    ensures Sorted(keys, made + a + b) && multiset(made + a + b) == total
  {
    if a == [] {
      assert made + a + b == made + b;
      AppendRest(keys, made, b);
    } else {
      assert made + a + b == made + a;
      AppendRest(keys, made, a);
    }
  }

  // ---- in place ----

  /** The array holds a run from a position on. */
  ghost predicate RunAt(order: array<nat>, at: nat, run: seq<nat>)
    reads order
  {
    at + |run| <= order.Length && forall x :: 0 <= x < |run| ==> run[x] == order[at + x]
  }

  lemma RunTail(order: array<nat>, at: nat, run: seq<nat>)
    requires RunAt(order, at, run) && run != []
    ensures order[at] == run[0] && RunAt(order, at + 1, run[1..])
  {
  }

  method Put(buf: array<nat>, left: nat, k: nat, x: nat, ghost made: seq<nat>)
    requires RunAt(buf, left, made) && k == left + |made| < buf.Length
    modifies buf
    ensures RunAt(buf, left, made + [x])
  {
    buf[k] := x;
  }

  /** Move the smaller front over. */
  method MergeOne(order: array<nat>, buf: array<nat>, keys: seq<string>, left: nat, i: nat, j: nat, k: nat,
                  ghost made: seq<nat>, ghost a: seq<nat>, ghost b: seq<nat>, ghost total: multiset<nat>)
    returns (fromLeft: bool, ghost made': seq<nat>, ghost a': seq<nat>, ghost b': seq<nat>)
    requires order != buf && a != [] && b != [] && RunAt(order, i, a) && RunAt(order, j, b)
    requires RunAt(buf, left, made) && k == left + |made| < buf.Length && Going(keys, made, a, b, total)
    modifies buf
    ensures RunAt(buf, left, made') && |made'| == |made| + 1 && Going(keys, made', a', b', total)
    ensures fromLeft ==> |a'| == |a| - 1 && RunAt(order, i + 1, a') && b' == b
    ensures !fromLeft ==> |b'| == |b| - 1 && RunAt(order, j + 1, b') && a' == a
  {
    RunTail(order, i, a);
    RunTail(order, j, b);
    fromLeft := Before(keys, order[i], order[j]);
    if fromLeft {
      Go(keys, made, a, b, total);
      Put(buf, left, k, order[i], made);
      made', a', b' := made + [a[0]], a[1..], b;
    } else {
      GoOther(keys, made, a, b, total);
      Put(buf, left, k, order[j], made);
      made', a', b' := made + [b[0]], a, b[1..];
    }
  }

  /** Merge two runs into the buffer until one of them is used up. */
  method MergeFronts(order: array<nat>, buf: array<nat>, keys: seq<string>, left: nat, mid: nat, right: nat,
                     ghost a0: seq<nat>, ghost b0: seq<nat>, ghost total: multiset<nat>)
    returns (i: nat, j: nat, ghost made: seq<nat>, ghost a: seq<nat>, ghost b: seq<nat>)
    requires order != buf && order.Length == buf.Length && left <= mid <= right <= order.Length
    requires |a0| == mid - left && |b0| == right - mid && RunAt(order, left, a0) && RunAt(order, mid, b0)
    requires Going(keys, [], a0, b0, total)
    modifies buf
    ensures left <= i <= mid <= j <= right && (i == mid || j == right)
    ensures |a| == mid - i && |b| == right - j && |made| == i - left + (j - mid)
    ensures RunAt(order, i, a) && RunAt(order, j, b) && RunAt(buf, left, made)
    ensures Going(keys, made, a, b, total)
  {
    i, j, made, a, b := left, mid, [], a0, b0;
    var k := left;
    while i < mid && j < right
      invariant left <= i <= mid <= j <= right && k == i + (j - mid)
      invariant |a| == mid - i && |b| == right - j && |made| == k - left
      invariant RunAt(order, i, a) && RunAt(order, j, b) && RunAt(buf, left, made)
      invariant Going(keys, made, a, b, total)
    {
      var fromLeft;
      fromLeft, made, a, b := MergeOne(order, buf, keys, left, i, j, k, made, a, b, total);
      if fromLeft {
        i := i + 1;
      } else {
        j := j + 1;
      }
      k := k + 1;
    }
  }

  /** Copy a run behind what the target holds from `left` on. */
  method CopyRun(src: array<nat>, from: nat, n: nat, dst: array<nat>, left: nat, at: nat, ghost made: seq<nat>,
          ghost run: seq<nat>)
    requires src != dst && RunAt(src, from, run) && n == |run| && RunAt(dst, left, made) && at == left + |made| &&
      at + n <= dst.Length
    modifies dst
    ensures RunAt(dst, left, made + run)
    ensures forall x :: 0 <= x < dst.Length && !(at <= x < at + n) ==> dst[x] == old(dst[x])
  {
    for k := 0 to n
      invariant RunAt(dst, left, made) && forall x :: 0 <= x < k ==> dst[at + x] == run[x]
      invariant forall x :: 0 <= x < dst.Length && !(at <= x < at + n) ==> dst[x] == old(dst[x])
    {
      dst[at + k] := src[from + k];
    }
  }

  /** Merge two neighbouring runs of the array, through the buffer. */
  method MergeRuns(order: array<nat>, buf: array<nat>, keys: seq<string>, left: nat, mid: nat, right: nat,
                   ghost a0: seq<nat>, ghost b0: seq<nat>) returns (ghost run: seq<nat>)
    requires order != buf && order.Length == buf.Length && left <= mid <= right <= order.Length
    requires |a0| == mid - left && |b0| == right - mid && RunAt(order, left, a0) && RunAt(order, mid, b0)
    requires Sorted(keys, a0) && Sorted(keys, b0)
    modifies order, buf
    ensures |run| == right - left && RunAt(order, left, run) && Sorted(keys, run) &&
      multiset(run) == multiset(a0) + multiset(b0)
    ensures forall x :: 0 <= x < order.Length && !(left <= x < right) ==> order[x] == old(order[x])
  {
    ghost var total := multiset(a0) + multiset(b0);
    var i, j, made, a, b := MergeFronts(order, buf, keys, left, mid, right, a0, b0, total);
    Gone(keys, made, a, b, total);
    var k := i + (j - mid);
    CopyRun(order, i, mid - i, buf, left, k, made, a);
    CopyRun(order, j, right - j, buf, left, k + (mid - i), made + a, b);
    run := made + a + b;
    CopyRun(buf, left, right - left, order, left, left, [], run);
    assert [] + run == run;
  }

  /** What a merge leaves in the array. */
  lemma MergedArray(keys: seq<string>, s: seq<nat>, t: seq<nat>, left: nat, mid: nat, right: nat, run: seq<nat>)
    requires left <= mid <= right <= |s| == |t| && |run| == right - left && Sorted(keys, run)
    requires multiset(run) == multiset(s[left..mid]) + multiset(s[mid..right])
    requires forall x :: 0 <= x < |run| ==> run[x] == t[left + x]
    requires forall x :: 0 <= x < |s| && !(left <= x < right) ==> t[x] == s[x]
    ensures SortedAt(keys, s, t, left, right) && multiset(t) == multiset(s)
  {
    assert t[..left] == s[..left] && t[right..] == s[right..];
    assert t[left..right] == run;
    FourParts(s, left, mid, right);
    FourParts(t, left, right, right);
    assert t[right..right] == [];
  }

  lemma FourParts(s: seq<nat>, left: nat, mid: nat, right: nat)
    requires left <= mid <= right <= |s|
    ensures multiset(s) == multiset(s[..left]) + multiset(s[left..mid]) + multiset(s[mid..right]) + multiset(s[right..])
  {
    assert s == s[..left] + s[left..mid] + s[mid..right] + s[right..];
  }

  /** Merge the two blocks from `left` on. */
  method MergeBlocks(order: array<nat>, buf: array<nat>, keys: seq<string>, left: nat, width: nat)
    requires order != buf && order.Length == buf.Length && width > 0 && left % (2 * width) == 0 &&
      left + width < order.Length
    requires BlocksBefore(keys, order[..], left, 2 * width) && BlocksFrom(keys, order[..], left, width)
    modifies order, buf
    ensures multiset(order[..]) == multiset(old(order[..]))
    ensures BlocksBefore(keys, order[..], End(left, 2 * width, order.Length), 2 * width)
    ensures BlocksFrom(keys, order[..], End(left, 2 * width, order.Length), width)
  {
    var mid := left + width;
    var right := End(mid, width, order.Length);
    ghost var s := order[..];
    HalfMultiple(width, left);
    NextMultiple(width, left);
    assert BlockAt(keys, s, left, width) && BlockAt(keys, s, mid, width);
    var run := MergeRuns(order, buf, keys, left, mid, right, s[left..mid], s[mid..right]);
    MergedArray(keys, s, order[..], left, mid, right, run);
    BlocksStep(keys, s, order[..], left, right, width);
  }

  /** One pass: merge all neighbouring blocks of a width. */
  method RunPass(order: array<nat>, buf: array<nat>, keys: seq<string>, width: nat)
    requires order != buf && order.Length == buf.Length && width > 0 && BlocksFrom(keys, order[..], 0, width)
    modifies order, buf
    ensures multiset(order[..]) == multiset(old(order[..])) && BlocksFrom(keys, order[..], 0, 2 * width)
  {
    var n := order.Length;
    var left := 0;
    while left < n
      invariant 0 <= left <= n && (left < n ==> left % (2 * width) == 0)
      invariant BlocksBefore(keys, order[..], left, 2 * width) && BlocksFrom(keys, order[..], left, width)
      invariant multiset(order[..]) == multiset(old(order[..]))
      decreases n - left
    {
      if left + width >= n {
        BlocksLast(keys, order[..], left, width);
        return;
      }
      MergeBlocks(order, buf, keys, left, width);
      NextMultiple(2 * width, left);
      left := End(left, 2 * width, n);
    }
  }

  /** Sort slot numbers by key, in place. */
  method Sort(order: array<nat>, buf: array<nat>, keys: seq<string>)
    requires order != buf && order.Length == buf.Length
    modifies order, buf
    ensures Sorted(keys, order[..]) && multiset(order[..]) == multiset(old(order[..]))
  {
    var n := order.Length;
    if n < 2 {
      return;
    }
    var width := 1;
    UnitBlocks(keys, order[..]);
    while width < n
      invariant width > 0 && BlocksFrom(keys, order[..], 0, width) && multiset(order[..]) == multiset(old(order[..]))
      decreases n - width
    {
      RunPass(order, buf, keys, width);
      width := width * 2;
    }
    WholeBlock(keys, order[..], width);
  }

  /** The first position whose key is not below the one looked for. */
  method Search(order: array<nat>, keys: seq<string>, key: string) returns (lo: nat)
    requires Sorted(keys, order[..])
    ensures lo <= order.Length
    ensures forall i :: 0 <= i < lo ==> !Leq(key, KeyAt(keys, order[i]))
    ensures lo < order.Length ==> Leq(key, KeyAt(keys, order[lo]))
    ensures (exists i :: 0 <= i < order.Length && KeyAt(keys, order[i]) == key) <==>
      lo < order.Length && KeyAt(keys, order[lo]) == key
  {
    lo := 0;
    var hi := order.Length;
    while lo < hi
      invariant lo <= hi <= order.Length
      invariant forall i :: 0 <= i < lo ==> !Leq(key, KeyAt(keys, order[i]))
      invariant forall i :: hi <= i < order.Length ==> Leq(key, KeyAt(keys, order[i]))
    {
      var mid := lo + (hi - lo) / 2;
      var below := Compare(KeyAt(keys, order[mid]), key) < 0;
      CompareOpposite(KeyAt(keys, order[mid]), key);
      Around(order, keys, key, mid);
      if below {
        lo := mid + 1;
      } else {
        hi := mid;
      }
    }
    forall i | lo < i < order.Length && KeyAt(keys, order[i]) == key ensures KeyAt(keys, order[lo]) == key {
      assert Pair(keys, order[..], lo, order[..], i);
      CompareOpposite(KeyAt(keys, order[lo]), key);
    }
    forall i | 0 <= i < lo ensures KeyAt(keys, order[i]) != key {
      CompareOpposite(key, KeyAt(keys, order[i]));
    }
  }

  /** What is below a key stays below to the left, and what is not stays so to the right. */
  lemma Around(order: array<nat>, keys: seq<string>, key: string, mid: nat)
    requires Sorted(keys, order[..]) && mid < order.Length
    ensures !Leq(key, KeyAt(keys, order[mid])) ==> forall i :: 0 <= i <= mid ==> !Leq(key, KeyAt(keys, order[i]))
    ensures Leq(key, KeyAt(keys, order[mid])) ==> forall i :: mid <= i < order.Length ==>
      Leq(key, KeyAt(keys, order[i]))
  {
    forall i | 0 <= i < mid && !Leq(key, KeyAt(keys, order[mid])) ensures !Leq(key, KeyAt(keys, order[i])) {
      assert Pair(keys, order[..], i, order[..], mid);
      if Leq(key, KeyAt(keys, order[i])) {
        LeqTransitive(key, KeyAt(keys, order[i]), KeyAt(keys, order[mid]));
        assert false;
      }
    }
    forall i | mid < i < order.Length && Leq(key, KeyAt(keys, order[mid])) ensures Leq(key, KeyAt(keys, order[i])) {
      assert Pair(keys, order[..], mid, order[..], i);
      LeqTransitive(key, KeyAt(keys, order[mid]), KeyAt(keys, order[i]));
    }
  }
}
