/**
 From missing pages to byte-range requests: consecutive pages of one segment become a run, and runs
 of one segment whose blocks lie within a byte window become one request.
 */
module RangeCoalescing {
  import opened Prelude
  import opened ResolvePage

  /** A segment's pages in block order, where each block starts, and the size of the object. */
  datatype Index = Index(pages: seq<nat>, offsets: seq<nat>, size: nat)

  /** A missing page and the segment that owns it. */
  datatype Request = Request(ordinal: nat, page: nat)

  /** Blocks lo up to hi of a segment, and the bytes they occupy. */
  datatype Run = Run(ordinal: nat, lo: nat, hi: nat, from: nat, to: nat)

  ghost predicate WfIndex(x: Index) {
    && StrictlyIncreasing(x.pages) && |x.offsets| == |x.pages| && StrictlyIncreasing(x.offsets)
    && (x.offsets != [] ==> x.offsets[|x.offsets| - 1] < x.size)
  }

  ghost predicate WfIndexes(tasks: seq<Index>) {
    forall i :: 0 <= i < |tasks| ==> WfIndex(tasks[i])
  }

  /** Where block k starts; the end of the object for the block after the last. */
  function Offset(x: Index, k: nat): nat
    requires |x.offsets| == |x.pages| && k <= |x.pages|
  {
    if k < |x.pages| then x.offsets[k] else x.size
  }

  lemma OffsetsGrow(x: Index, j: nat, k: nat)
    requires WfIndex(x) && j <= k <= |x.pages|
    ensures Offset(x, j) <= Offset(x, k) <= x.size
    ensures j < k ==> Offset(x, j) < Offset(x, k)
  {
  }

  /** The run covers exactly its blocks. */
  ghost predicate WfRun(tasks: seq<Index>, r: Run) {
    && r.ordinal < |tasks| && |tasks[r.ordinal].offsets| == |tasks[r.ordinal].pages|
    && r.lo < r.hi <= |tasks[r.ordinal].pages|
    && r.from == Offset(tasks[r.ordinal], r.lo) && r.to == Offset(tasks[r.ordinal], r.hi)
  }

  ghost predicate WfRuns(tasks: seq<Index>, runs: seq<Run>) {
    forall i :: 0 <= i < |runs| ==> WfRun(tasks, runs[i])
  }

  /** One of the run's blocks is the block of the page. */
  ghost predicate Serves(tasks: seq<Index>, r: Run, q: Request)
    requires WfRun(tasks, r)
  {
    r.ordinal == q.ordinal && q.page in tasks[r.ordinal].pages[r.lo..r.hi]
  }

  ghost predicate Served(tasks: seq<Index>, runs: seq<Run>, q: Request)
    requires WfRuns(tasks, runs)
  {
    exists i :: 0 <= i < |runs| && Serves(tasks, runs[i], q)
  }

  /** Missing pages in page order, each a page of its segment. */
  ghost predicate WfRequests(tasks: seq<Index>, requests: seq<Request>) {
    && (forall i :: 0 <= i < |requests| ==>
          requests[i].ordinal < |tasks| && requests[i].page in tasks[requests[i].ordinal].pages)
    && (forall i, j :: 0 <= i < j < |requests| ==> requests[i].page < requests[j].page)
  }

  /** a lies before b in the same segment, or they belong to different segments. */
  ghost predicate Before(a: Run, b: Run) {
    a.ordinal == b.ordinal ==> a.hi <= b.lo
  }

  ghost predicate InOrder(runs: seq<Run>) {
    forall i, j :: 0 <= i < j < |runs| ==> Before(runs[i], runs[j])
  }

  ghost function Segments(requests: seq<Request>): set<nat> {
    set q | q in requests :: q.ordinal
  }

  ghost predicate OnlyOf(runs: seq<Run>, segments: set<nat>) {
    forall i :: 0 <= i < |runs| ==> runs[i].ordinal in segments
  }

  // ---- consecutive pages ----

  /** In a sorted page set that holds every page from pages[k] on for n more, they are neighbours. */
  lemma {:induction false} Neighbours(pages: seq<nat>, k: nat, n: nat)
    requires StrictlyIncreasing(pages) && k < |pages|
    requires forall p :: pages[k] <= p <= pages[k] + n ==> p in pages
    ensures k + n < |pages| && forall j :: k <= j <= k + n ==> pages[j] == pages[k] + (j - k)
  {
    if n > 0 {
      Neighbours(pages, k, n - 1);
      var p := pages[k] + n;
      assert p in pages;
      var j :| 0 <= j < |pages| && pages[j] == p;
      assert pages[k + n - 1] == p - 1;
      assert j > k + n - 1;
    }
  }

  ghost predicate Shaped(tasks: seq<Index>) {
    forall i :: 0 <= i < |tasks| ==> StrictlyIncreasing(tasks[i].pages) && |tasks[i].offsets| == |tasks[i].pages|
  }

  /** Requests start to end ask one segment for consecutive pages. */
  ghost predicate Stretch(requests: seq<Request>, start: nat, end: nat) {
    && start <= end < |requests|
    && forall j :: start <= j <= end ==>
      requests[j] == Request(requests[start].ordinal, requests[start].page + (j - start))
  }

  /** The longest stretch from a request on. */
  method StretchEnd(requests: seq<Request>, start: nat) returns (end: nat)
    requires start < |requests|
    ensures Stretch(requests, start, end)
    ensures end + 1 < |requests| ==> requests[end + 1] != Request(requests[end].ordinal, requests[end].page + 1)
  {
    end := start;
    while end + 1 < |requests| && requests[end + 1].ordinal == requests[start].ordinal &&
      requests[end + 1].page == requests[end].page + 1
      invariant Stretch(requests, start, end)
    {
      end := end + 1;
    }
  }

  /** What the runs made of the first i requests promise. */
  ghost predicate Packed(tasks: seq<Index>, requests: seq<Request>, runs: seq<Run>, i: nat) {
    && i <= |requests| && WfRuns(tasks, runs) && InOrder(runs)
    && (forall j :: 0 <= j < i ==> Served(tasks, runs, requests[j]))
    && (forall r, j :: 0 <= r < |runs| && i <= j < |requests| ==> Passed(tasks, runs[r], requests[j]))
  }

  /** The request's page lies beyond the run's blocks. */
  ghost predicate Passed(tasks: seq<Index>, r: Run, q: Request)
    requires WfRun(tasks, r)
  {
    r.ordinal == q.ordinal ==> tasks[r.ordinal].pages[r.hi - 1] < q.page
  }

  lemma StretchRun(tasks: seq<Index>, requests: seq<Request>, start: nat, end: nat, lo: nat)
    requires Stretch(requests, start, end) && WfIndexes(tasks) && WfRequests(tasks, requests)
    requires var x := tasks[requests[start].ordinal]; lo < |x.pages| && x.pages[lo] == requests[start].page
    ensures var x, n := tasks[requests[start].ordinal], end - start + 1;
      && lo + n <= |x.pages| && Offset(x, lo) < Offset(x, lo + n) <= x.size
      && (forall j :: start <= j <= end ==> x.pages[lo + (j - start)] == requests[j].page)
  {
    var x, n := tasks[requests[start].ordinal], end - start;
    forall p | x.pages[lo] <= p <= x.pages[lo] + n ensures p in x.pages {
      assert requests[start + (p - x.pages[lo])] == Request(requests[start].ordinal, p);
    }
    Neighbours(x.pages, lo, n);
    OffsetsGrow(x, lo, lo + n + 1);
    forall j | start <= j <= end ensures x.pages[lo + (j - start)] == requests[j].page {
      assert requests[j].page == requests[start].page + (j - start);
    }
  }

  /** Run r holds the pages of a stretch. */
  ghost predicate Holds(tasks: seq<Index>, requests: seq<Request>, start: nat, end: nat, r: Run) {
    && Stretch(requests, start, end) && WfRun(tasks, r) && r.ordinal == requests[start].ordinal
    && r.hi == r.lo + (end - start + 1)
    && forall j :: start <= j <= end ==> tasks[r.ordinal].pages[r.lo + (j - start)] == requests[j].page
  }

  lemma ServedStep(tasks: seq<Index>, requests: seq<Request>, runs: seq<Run>, start: nat, end: nat, r: Run, j: nat)
    requires WfRuns(tasks, runs) && Holds(tasks, requests, start, end, r) && j <= end
    requires j < start ==> Served(tasks, runs, requests[j])
    ensures Served(tasks, runs + [r], requests[j])
  {
    var more := runs + [r];
    if j < start {
      var i :| 0 <= i < |runs| && Serves(tasks, runs[i], requests[j]);
      assert more[i] == runs[i];
    } else {
      assert tasks[r.ordinal].pages[r.lo..r.hi][j - start] == requests[j].page;
      assert Serves(tasks, more[|runs|], requests[j]);
    }
  }

  lemma OrderStep(tasks: seq<Index>, requests: seq<Request>, earlier: Run, start: nat, end: nat, r: Run)
    requires WfRun(tasks, earlier) && Holds(tasks, requests, start, end, r) && Passed(tasks, earlier, requests[start])
    requires StrictlyIncreasing(tasks[r.ordinal].pages)
    ensures Before(earlier, r)
  {
    assert tasks[r.ordinal].pages[r.lo + (start - start)] == requests[start].page;
  }

  lemma PassedStep(tasks: seq<Index>, requests: seq<Request>, start: nat, end: nat, r: Run, q: Request)
    requires Holds(tasks, requests, start, end, r) && requests[end].page < q.page
    ensures Passed(tasks, r, q)
  {
    assert tasks[r.ordinal].pages[r.lo + (end - start)] == requests[end].page;
  }

  lemma PackedStep(tasks: seq<Index>, requests: seq<Request>, runs: seq<Run>, start: nat, end: nat, r: Run)
    requires Packed(tasks, requests, runs, start) && Holds(tasks, requests, start, end, r)
    requires WfIndex(tasks[r.ordinal]) && forall j :: end < j < |requests| ==> requests[end].page < requests[j].page
    ensures Packed(tasks, requests, runs + [r], end + 1)
  {
    var more := runs + [r];
    forall j | 0 <= j < end + 1 ensures Served(tasks, more, requests[j]) {
      ServedStep(tasks, requests, runs, start, end, r, j);
    }
    forall i | 0 <= i < |runs| ensures Before(runs[i], r) {
      OrderStep(tasks, requests, runs[i], start, end, r);
    }
    forall i, j | 0 <= i < |more| && end + 1 <= j < |requests| ensures Passed(tasks, more[i], requests[j]) {
      if i < |runs| {
        assert Passed(tasks, runs[i], requests[j]);
      } else {
        PassedStep(tasks, requests, start, end, r, requests[j]);
      }
    }
  }

  /** Every block of the run was asked for. */
  ghost predicate Wanted(tasks: seq<Index>, requests: seq<Request>, r: Run)
    requires WfRun(tasks, r)
  {
    forall k :: r.lo <= k < r.hi ==> Request(r.ordinal, tasks[r.ordinal].pages[k]) in requests
  }

  ghost predicate AllWanted(tasks: seq<Index>, requests: seq<Request>, runs: seq<Run>)
    requires WfRuns(tasks, runs)
  {
    forall i :: 0 <= i < |runs| ==> Wanted(tasks, requests, runs[i])
  }

  lemma StretchWanted(tasks: seq<Index>, requests: seq<Request>, start: nat, end: nat, r: Run)
    requires Holds(tasks, requests, start, end, r)
    ensures Wanted(tasks, requests, r)
  {
    forall k | r.lo <= k < r.hi ensures Request(r.ordinal, tasks[r.ordinal].pages[k]) in requests {
      var j := start + (k - r.lo);
      assert tasks[r.ordinal].pages[r.lo + (j - start)] == requests[j].page;
      assert requests[j] == Request(r.ordinal, tasks[r.ordinal].pages[k]);
    }
  }

  /** The first i requests are packed into runs that hold nothing else. */
  ghost predicate Made(tasks: seq<Index>, requests: seq<Request>, runs: seq<Run>, i: nat) {
    Packed(tasks, requests, runs, i) && AllWanted(tasks, requests, runs)
  }

  lemma MadeStep(tasks: seq<Index>, requests: seq<Request>, runs: seq<Run>, start: nat, end: nat, r: Run)
    requires Made(tasks, requests, runs, start) && Holds(tasks, requests, start, end, r)
    requires WfIndex(tasks[r.ordinal]) && forall j :: end < j < |requests| ==> requests[end].page < requests[j].page
    ensures Made(tasks, requests, runs + [r], end + 1)
  {
    PackedStep(tasks, requests, runs, start, end, r);
    StretchWanted(tasks, requests, start, end, r);
  }

  /** Consecutive pages of one segment become one run. */
  method Runs(tasks: seq<Index>, requests: seq<Request>) returns (ok: bool, runs: seq<Run>)
    requires Shaped(tasks) && forall i :: 0 <= i < |requests| ==> requests[i].ordinal < |tasks|
    ensures ok ==> WfRuns(tasks, runs)
    ensures OnlyOf(runs, Segments(requests))
    ensures WfIndexes(tasks) && WfRequests(tasks, requests) ==> ok && Made(tasks, requests, runs, |requests|)
  {
    ghost var good := WfIndexes(tasks) && WfRequests(tasks, requests);
    runs := [];
    var i := 0;
    while i < |requests|
      invariant 0 <= i <= |requests| && WfRuns(tasks, runs) && OnlyOf(runs, Segments(requests))
      invariant good ==> Made(tasks, requests, runs, i)
      decreases |requests| - i
    {
      var end := StretchEnd(requests, i);
      var x, n := tasks[requests[i].ordinal], end - i + 1;
      var lo := LowerBound(x.pages, requests[i].page);
      if good { StretchRun(tasks, requests, i, end, lo); }
      if lo >= |x.pages| || x.pages[lo] != requests[i].page || lo + n > |x.pages| {
        return false, [];
      }
      assert requests[i] in requests;
      var r := Run(requests[i].ordinal, lo, lo + n, Offset(x, lo), Offset(x, lo + n));
      if r.from >= r.to || r.to > x.size {
        return false, [];
      }
      if good { MadeStep(tasks, requests, runs, i, end, r); }
      runs := runs + [r];
      i := end + 1;
    }
    ok := true;
  }

  // ---- the byte window ----

  /** More than the window apart in the same segment. */
  ghost predicate Apart(window: nat, a: Run, b: Run) {
    Before(a, b) && (window > 0 && a.ordinal == b.ordinal ==> a.to + window < b.from)
  }

  ghost predicate Separate(window: nat, runs: seq<Run>) {
    forall i, j :: 0 <= i < j < |runs| ==> Apart(window, runs[i], runs[j]) || Apart(window, runs[j], runs[i])
  }

  ghost predicate Contains(x: Run, r: Run) {
    x.ordinal == r.ordinal && x.lo <= r.lo && r.hi <= x.hi
  }

  /** Some run holds all blocks of r. */
  ghost predicate Within(runs: seq<Run>, r: Run) {
    exists x :: x in runs && Contains(x, r)
  }

  /** The open runs belong to different segments. */
  ghost predicate OnePerSegment(open: seq<Run>) {
    forall i, j :: 0 <= i < j < |open| ==> open[i].ordinal != open[j].ordinal
  }

  /**
   After the first r runs: closed runs are out of reach of everything that comes later, open runs
   lie before it, and everything seen is inside one of them.
   */
  ghost predicate Merging(tasks: seq<Index>, window: nat, runs: seq<Run>, r: nat, closed: seq<Run>, open: seq<Run>) {
    && r <= |runs| && WfRuns(tasks, closed) && WfRuns(tasks, open) && OnePerSegment(open)
    && Separate(window, closed)
    && (forall a, b :: a in closed && b in open ==> Apart(window, a, b))
    && (forall a, j :: a in closed && r <= j < |runs| ==> Apart(window, a, runs[j]))
    && (forall a, j :: a in open && r <= j < |runs| ==> Before(a, runs[j]))
    && (forall j :: 0 <= j < r ==> Within(closed, runs[j]) || Within(open, runs[j]))
  }

  /** The run comes after an earlier one inside x, no more than the window away. */
  ghost predicate Follows(window: nat, runs: seq<Run>, r: nat, x: Run, b: Run)
    requires r <= |runs|
  {
    exists j :: 0 <= j < r && Contains(x, runs[j]) && runs[j].hi <= b.lo && b.from <= runs[j].to + window
  }

  /** x begins and ends with one of the first r runs, and each of those in it follows another or begins it. */
  ghost predicate Tight(window: nat, runs: seq<Run>, r: nat, x: Run)
    requires r <= |runs|
  {
    && (exists j :: 0 <= j < r && Contains(x, runs[j]) && runs[j].lo == x.lo)
    && (exists j :: 0 <= j < r && Contains(x, runs[j]) && runs[j].hi == x.hi && runs[j].to == x.to)
    && forall j {:trigger Follows(window, runs, r, x, runs[j])} ::
      0 <= j < r && Contains(x, runs[j]) && runs[j].lo != x.lo ==> Follows(window, runs, r, x, runs[j])
  }

  ghost predicate AllTight(window: nat, runs: seq<Run>, r: nat, some: seq<Run>)
    requires r <= |runs|
  {
    forall x {:trigger Tight(window, runs, r, x)} :: x in some ==> Tight(window, runs, r, x)
  }

  lemma FollowsStill(window: nat, runs: seq<Run>, r: nat, x: Run, y: Run, b: Run)
    requires r < |runs| && Follows(window, runs, r, x, b) && x.ordinal == y.ordinal && x.lo == y.lo && x.hi <= y.hi
    ensures Follows(window, runs, r + 1, y, b)
  {
    var j :| 0 <= j < r && Contains(x, runs[j]) && runs[j].hi <= b.lo && b.from <= runs[j].to + window;
    assert Contains(y, runs[j]);
  }

  /** The next run is not inside x. */
  lemma TightStays(window: nat, runs: seq<Run>, r: nat, x: Run)
    requires r < |runs| && Tight(window, runs, r, x) && !Contains(x, runs[r])
    ensures Tight(window, runs, r + 1, x)
  {
    forall j | 0 <= j < r + 1 && Contains(x, runs[j]) && runs[j].lo != x.lo
      ensures Follows(window, runs, r + 1, x, runs[j]) {
      assert Follows(window, runs, r, x, runs[j]);
      FollowsStill(window, runs, r, x, x, runs[j]);
    }
  }

  lemma TightAlone(window: nat, runs: seq<Run>, r: nat)
    requires r < |runs| && forall j :: 0 <= j < r ==> !Contains(runs[r], runs[j])
    ensures Tight(window, runs, r + 1, runs[r])
  {
    assert Contains(runs[r], runs[r]);
  }

  /** The next run joins x, which it follows; nothing else comes to lie inside. */
  lemma TightJoined(window: nat, runs: seq<Run>, r: nat, x: Run)
    requires r < |runs| && Tight(window, runs, r, x) && x.ordinal == runs[r].ordinal && x.lo < x.hi <= runs[r].lo
    requires runs[r].lo < runs[r].hi && runs[r].from <= x.to + window
    requires forall j :: 0 <= j < r && Contains(Joined(x, runs[r]), runs[j]) ==> Contains(x, runs[j])
    ensures Tight(window, runs, r + 1, Joined(x, runs[r]))
  {
    var y := Joined(x, runs[r]);
    assert Contains(y, runs[r]);
    var first :| 0 <= first < r && Contains(x, runs[first]) && runs[first].lo == x.lo;
    assert Contains(y, runs[first]);
    var last :| 0 <= last < r && Contains(x, runs[last]) && runs[last].hi == x.hi && runs[last].to == x.to;
    assert Contains(y, runs[last]);
    forall j | 0 <= j < r + 1 && Contains(y, runs[j]) && runs[j].lo != y.lo
      ensures Follows(window, runs, r + 1, y, runs[j]) {
      if j < r {
        assert Follows(window, runs, r, x, runs[j]);
        FollowsStill(window, runs, r, x, y, runs[j]);
      } else {
        assert runs[last].hi <= runs[r].lo && runs[r].from <= runs[last].to + window;
      }
    }
  }

  /** A run seen before that lies in the joined run lies in the open run. */
  lemma InOpen(tasks: seq<Index>, window: nat, runs: seq<Run>, r: nat, closed: seq<Run>, open: seq<Run>, k: nat, j: nat)
    requires Merging(tasks, window, runs, r, closed, open) && r < |runs| && WfRuns(tasks, runs)
    requires k < |open| && j < r && runs[j].ordinal == open[k].ordinal && open[k].lo <= runs[j].lo
    ensures Contains(open[k], runs[j])
  {
    assert open[k] in open && WfRun(tasks, runs[j]);
    if Within(closed, runs[j]) {
      var x :| x in closed && Contains(x, runs[j]);
      assert Apart(window, x, open[k]);
    } else {
      var i :| 0 <= i < |open| && Contains(open[i], runs[j]);
      assert i == k;
    }
  }

  /** Runs that were closed, or are open for another segment, are as tight as before. */
  lemma OthersTight(window: nat, runs: seq<Run>, r: nat, some: seq<Run>)
    requires r < |runs| && AllTight(window, runs, r, some) && runs[r].lo < runs[r].hi
    requires forall x :: x in some ==> Before(x, runs[r])
    ensures AllTight(window, runs, r + 1, some)
  {
    forall x | x in some ensures Tight(window, runs, r + 1, x) {
      TightStays(window, runs, r, x);
    }
  }

  lemma JoinTight(tasks: seq<Index>, window: nat, runs: seq<Run>, r: nat, closed: seq<Run>, open: seq<Run>, k: nat)
    requires Merging(tasks, window, runs, r, closed, open) && r < |runs| && WfRuns(tasks, runs)
    requires AllTight(window, runs, r, open) && k < |open| && open[k].ordinal == runs[r].ordinal
    requires runs[r].from <= open[k].to + window
    ensures AllTight(window, runs, r + 1, open[k := Joined(open[k], runs[r])])
  {
    assert WfRun(tasks, runs[r]) && WfRun(tasks, open[k]) && open[k] in open && Before(open[k], runs[r]);
    OthersTight(window, runs, r, open);
    forall j | 0 <= j < r && Contains(Joined(open[k], runs[r]), runs[j]) ensures Contains(open[k], runs[j]) {
      InOpen(tasks, window, runs, r, closed, open, k, j);
    }
    TightJoined(window, runs, r, open[k]);
  }

  lemma OpenTight(tasks: seq<Index>, window: nat, runs: seq<Run>, r: nat, open: seq<Run>)
    requires r < |runs| && WfRuns(tasks, runs) && InOrder(runs) && AllTight(window, runs, r + 1, open)
    ensures AllTight(window, runs, r + 1, open + [runs[r]])
  {
    assert WfRun(tasks, runs[r]);
    forall j | 0 <= j < r ensures !Contains(runs[r], runs[j]) {
      assert Before(runs[j], runs[r]) && WfRun(tasks, runs[j]);
    }
    TightAlone(window, runs, r);
  }

  /** The open run of a segment. */
  method FindOpen(open: seq<Run>, ordinal: nat) returns (slot: Option<nat>)
    ensures slot.Some? ==> slot.value < |open| && open[slot.value].ordinal == ordinal
    ensures slot.None? ==> forall i :: 0 <= i < |open| ==> open[i].ordinal != ordinal
  {
    for o := 0 to |open|
      invariant forall i :: 0 <= i < o ==> open[i].ordinal != ordinal
    {
      if open[o].ordinal == ordinal {
        return Some(o);
      }
    }
    slot := None;
  }

  /** The open run grows to take in the next run. */
  function Joined(a: Run, b: Run): Run {
    a.(hi := b.hi, to := b.to)
  }

  /** Slot k is freed by moving the last open run into it. */
  function Freed(open: seq<Run>, k: nat): seq<Run>
    requires k < |open|
  {
    (if |open| > 1 then open[k := open[|open| - 1]] else open)[..|open| - 1]
  }

  lemma JoinStep(tasks: seq<Index>, window: nat, runs: seq<Run>, r: nat, closed: seq<Run>, open: seq<Run>, k: nat)
    requires Merging(tasks, window, runs, r, closed, open) && r < |runs| && WfRuns(tasks, runs) && InOrder(runs)
    requires k < |open| && open[k].ordinal == runs[r].ordinal
    ensures Merging(tasks, window, runs, r + 1, closed, open[k := Joined(open[k], runs[r])])
  {
    var joined := Joined(open[k], runs[r]);
    var more := open[k := joined];
    assert open[k] in open && Before(open[k], runs[r]) && more[k] == joined;
    forall j | 0 <= j < r + 1 ensures Within(closed, runs[j]) || Within(more, runs[j]) {
      if j == r {
        assert Contains(joined, runs[r]);
      } else if Within(open, runs[j]) {
        var i :| 0 <= i < |open| && Contains(open[i], runs[j]);
        assert more[i] in more && Contains(more[i], runs[j]);
      }
    }
    forall a, j | a in more && r + 1 <= j < |runs| ensures Before(a, runs[j]) {
      assert Before(runs[r], runs[j]) && (a == joined || a in open);
    }
    forall a, b | a in closed && b in more ensures Apart(window, a, b) {
      assert Apart(window, a, open[k]) && (b == joined || b in open);
    }
  }

  lemma FreedFacts(open: seq<Run>, k: nat)
    requires OnePerSegment(open) && k < |open|
    ensures OnePerSegment(Freed(open, k))
    ensures forall x :: x in Freed(open, k) <==> x in open && x.ordinal != open[k].ordinal
  {
    var left := Freed(open, k);
    forall i | 0 <= i < |left| ensures left[i] in open && left[i].ordinal != open[k].ordinal {
      assert left[i] == open[if i == k then |open| - 1 else i];
    }
    forall x | x in open && x.ordinal != open[k].ordinal ensures x in left {
      var i :| 0 <= i < |open| && open[i] == x;
      assert left[if i == |open| - 1 then k else i] == x;
    }
  }

  /** Nothing from run r on is within reach of an open run that run r does not reach. */
  lemma OutOfReach(tasks: seq<Index>, window: nat, runs: seq<Run>, r: nat, a: Run, j: nat)
    requires WfIndexes(tasks) && WfRuns(tasks, runs) && InOrder(runs) && r <= j < |runs| && WfRun(tasks, a)
    requires a.ordinal == runs[r].ordinal && a.hi <= runs[r].lo && (window > 0 ==> a.to + window < runs[r].from)
    ensures Apart(window, a, runs[j])
  {
    if j > r {
      assert Before(runs[r], runs[j]);
      if runs[j].ordinal == a.ordinal {
        OffsetsGrow(tasks[a.ordinal], runs[r].lo, runs[j].lo);
      }
    }
  }

  /** Run r opens; the open run of its segment, if any, is closed. */
  lemma OpenStep(tasks: seq<Index>, window: nat, runs: seq<Run>, r: nat, closed: seq<Run>, open: seq<Run>)
    requires Merging(tasks, window, runs, r, closed, open) && r < |runs| && WfRuns(tasks, runs) && InOrder(runs)
    requires forall x :: x in open ==> x.ordinal != runs[r].ordinal
    ensures Merging(tasks, window, runs, r + 1, closed, open + [runs[r]])
  {
    var more := open + [runs[r]];
    forall j | 0 <= j < r + 1 ensures Within(closed, runs[j]) || Within(more, runs[j]) {
      if j == r {
        assert runs[r] in more && Contains(runs[r], runs[r]);
      } else if Within(open, runs[j]) {
        var x :| x in open && Contains(x, runs[j]);
        assert x in more;
      }
    }
    forall a, j | a in more && r + 1 <= j < |runs| ensures Before(a, runs[j]) {
      assert a in open || a == runs[r];
      assert Before(runs[r], runs[j]);
    }
    assert forall i :: 0 <= i < |open| ==> open[i] in open;
  }

  lemma CloseWithin(closed: seq<Run>, open: seq<Run>, k: nat, r: Run)
    requires OnePerSegment(open) && k < |open| && (Within(closed, r) || Within(open, r))
    ensures Within(closed + [open[k]], r) || Within(Freed(open, k), r)
  {
    FreedFacts(open, k);
    if Within(closed, r) {
      var x :| x in closed && Contains(x, r);
      assert x in closed + [open[k]];
    } else {
      var x :| x in open && Contains(x, r);
      assert x.ordinal == open[k].ordinal ==> x == open[k];
      assert x in Freed(open, k) || x in closed + [open[k]];
    }
  }

  lemma SeparateStep(window: nat, closed: seq<Run>, a: Run)
    requires Separate(window, closed) && forall c :: c in closed ==> Apart(window, c, a)
    ensures Separate(window, closed + [a])
  {
    assert forall i :: 0 <= i < |closed| ==> closed[i] in closed;
  }

  lemma CloseStep(tasks: seq<Index>, window: nat, runs: seq<Run>, r: nat, closed: seq<Run>, open: seq<Run>, k: nat)
    requires Merging(tasks, window, runs, r, closed, open) && r < |runs| && WfIndexes(tasks) && WfRuns(tasks, runs) &&
      InOrder(runs)
    requires k < |open| && open[k].ordinal == runs[r].ordinal && (window > 0 ==> open[k].to + window < runs[r].from)
    ensures Merging(tasks, window, runs, r, closed + [open[k]], Freed(open, k))
  {
    var closed', open' := closed + [open[k]], Freed(open, k);
    FreedFacts(open, k);
    assert open[k] in open && Before(open[k], runs[r]);
    SeparateStep(window, closed, open[k]);
    forall j | r <= j < |runs| ensures Apart(window, open[k], runs[j]) {
      OutOfReach(tasks, window, runs, r, open[k], j);
    }
    assert forall a :: a in closed' <==> a in closed || a == open[k];
    forall j | 0 <= j < r ensures Within(closed', runs[j]) || Within(open', runs[j]) {
      CloseWithin(closed, open, k, runs[j]);
    }
    WfSub(tasks, open, open');
    WfSub(tasks, closed + open, closed');
  }

  lemma WfSub(tasks: seq<Index>, runs: seq<Run>, some: seq<Run>)
    requires WfRuns(tasks, runs) && forall x :: x in some ==> x in runs
    ensures WfRuns(tasks, some)
  {
    forall i | 0 <= i < |some| ensures WfRun(tasks, some[i]) {
      assert some[i] in some;
    }
  }

  lemma FreedOnly(open: seq<Run>, k: nat, segments: set<nat>)
    requires OnlyOf(open, segments) && k < |open|
    ensures OnlyOf(Freed(open, k), segments)
  {
    forall i | 0 <= i < |open| - 1 ensures Freed(open, k)[i].ordinal in segments {
      assert Freed(open, k)[i] == open[if i == k then |open| - 1 else i];
    }
  }

  /** The whole of it: what the merged runs promise, which segments they are of, and how tight they are. */
  ghost predicate Merged(tasks: seq<Index>, window: nat, runs: seq<Run>, r: nat, closed: seq<Run>, open: seq<Run>,
          segments: set<nat>) {
    && Merging(tasks, window, runs, r, closed, open) && OnlyOf(closed, segments) && OnlyOf(open, segments)
    && AllTight(window, runs, r, closed) && AllTight(window, runs, r, open)
  }

  lemma MergedJoin(tasks: seq<Index>, window: nat, runs: seq<Run>, r: nat, closed: seq<Run>, open: seq<Run>,
          segments: set<nat>, k: nat)
    requires Merged(tasks, window, runs, r, closed, open, segments) && r < |runs|
    requires WfRuns(tasks, runs) && InOrder(runs)
    requires k < |open| && open[k].ordinal == runs[r].ordinal && runs[r].from <= open[k].to + window
    requires runs[r].ordinal in segments
    ensures Merged(tasks, window, runs, r + 1, closed, open[k := Joined(open[k], runs[r])], segments)
  {
    JoinStep(tasks, window, runs, r, closed, open, k);
    JoinTight(tasks, window, runs, r, closed, open, k);
    ClosedTight(tasks, window, runs, r, closed, open);
  }

  lemma ClosedTight(tasks: seq<Index>, window: nat, runs: seq<Run>, r: nat, closed: seq<Run>, open: seq<Run>)
    requires Merging(tasks, window, runs, r, closed, open) && r < |runs| && WfRuns(tasks, runs)
    requires AllTight(window, runs, r, closed)
    ensures AllTight(window, runs, r + 1, closed)
  {
    assert WfRun(tasks, runs[r]);
    assert forall x :: x in closed ==> Apart(window, x, runs[r]);
    OthersTight(window, runs, r, closed);
  }

  lemma MergedClose(tasks: seq<Index>, window: nat, runs: seq<Run>, r: nat, closed: seq<Run>, open: seq<Run>,
          segments: set<nat>, k: nat)
    requires Merged(tasks, window, runs, r, closed, open, segments) && r < |runs| && WfIndexes(tasks)
    requires WfRuns(tasks, runs) && InOrder(runs) && k < |open| && open[k].ordinal == runs[r].ordinal
    requires window > 0 ==> open[k].to + window < runs[r].from
    ensures Merged(tasks, window, runs, r, closed + [open[k]], Freed(open, k), segments)
    ensures forall x :: x in Freed(open, k) ==> x.ordinal != runs[r].ordinal
  {
    CloseStep(tasks, window, runs, r, closed, open, k);
    FreedFacts(open, k);
    FreedOnly(open, k, segments);
    assert open[k] in open && Tight(window, runs, r, open[k]);
    assert AllTight(window, runs, r, Freed(open, k));
  }

  lemma MergedOpen(tasks: seq<Index>, window: nat, runs: seq<Run>, r: nat, closed: seq<Run>, open: seq<Run>,
          segments: set<nat>)
    requires Merged(tasks, window, runs, r, closed, open, segments) && r < |runs|
    requires WfRuns(tasks, runs) && InOrder(runs)
    requires runs[r].ordinal in segments && forall x :: x in open ==> x.ordinal != runs[r].ordinal
    ensures Merged(tasks, window, runs, r + 1, closed, open + [runs[r]], segments)
  {
    OpenStep(tasks, window, runs, r, closed, open);
    ClosedTight(tasks, window, runs, r, closed, open);
    assert WfRun(tasks, runs[r]);
    OthersTight(window, runs, r, open);
    OpenTight(tasks, window, runs, r, open);
  }

  /** Run r joins the open run of its segment if that is within reach, else takes its place. */
  method Take(tasks: seq<Index>, window: nat, runs: seq<Run>, r: nat, closed: seq<Run>, open: seq<Run>,
          ghost segments: set<nat>)
    returns (closed': seq<Run>, open': seq<Run>)
    requires WfIndexes(tasks) && WfRuns(tasks, runs) && InOrder(runs) && r < |runs| && runs[r].ordinal in segments
    requires Merged(tasks, window, runs, r, closed, open, segments)
    ensures Merged(tasks, window, runs, r + 1, closed', open', segments)
  {
    closed', open' := closed, open;
    var slot := FindOpen(open, runs[r].ordinal);
    if slot.Some? {
      var k := slot.value;
      Reaches(tasks, window, runs, r, closed, open, k);
      if window > 0 && runs[r].from >= open[k].to && runs[r].from - open[k].to <= window {
        MergedJoin(tasks, window, runs, r, closed, open, segments, k);
        return closed, open[k := Joined(open[k], runs[r])];
      }
      MergedClose(tasks, window, runs, r, closed, open, segments, k);
      closed', open' := closed + [open[k]], Freed(open, k);
    }
    MergedOpen(tasks, window, runs, r, closed', open', segments);
    open' := open' + [runs[r]];
  }

  /**
   Runs of one segment whose blocks lie within the window become one: everything is inside a merged run, these
   are out of each other's reach, and none takes in a gap wider than the window.
   */
  method Merge(tasks: seq<Index>, window: nat, runs: seq<Run>, ghost segments: set<nat>) returns (merged: seq<Run>)
    requires WfIndexes(tasks) && WfRuns(tasks, runs) && InOrder(runs) && OnlyOf(runs, segments)
    ensures WfRuns(tasks, merged) && Separate(window, merged) && OnlyOf(merged, segments)
    ensures forall j :: 0 <= j < |runs| ==> Within(merged, runs[j])
    ensures AllTight(window, runs, |runs|, merged)
  {
    var closed: seq<Run>, open: seq<Run> := [], [];
    for r := 0 to |runs|
      invariant Merged(tasks, window, runs, r, closed, open, segments)
    {
      closed, open := Take(tasks, window, runs, r, closed, open, segments);
    }
    AllTogether(tasks, window, runs, closed, open);
    merged := closed + open;
  }

  /** An open run ends before the next run of its segment starts, in bytes too. */
  lemma Reaches(tasks: seq<Index>, window: nat, runs: seq<Run>, r: nat, closed: seq<Run>, open: seq<Run>, k: nat)
    requires Merging(tasks, window, runs, r, closed, open) && r < |runs| && WfIndexes(tasks) && WfRuns(tasks, runs)
    requires k < |open| && open[k].ordinal == runs[r].ordinal
    ensures open[k].to <= runs[r].from
  {
    assert open[k] in open && Before(open[k], runs[r]);
    OffsetsGrow(tasks[runs[r].ordinal], open[k].hi, runs[r].lo);
  }

  lemma AllTogether(tasks: seq<Index>, window: nat, runs: seq<Run>, closed: seq<Run>, open: seq<Run>)
    requires Merging(tasks, window, runs, |runs|, closed, open)
    ensures WfRuns(tasks, closed + open) && Separate(window, closed + open)
    ensures forall j :: 0 <= j < |runs| ==> Within(closed + open, runs[j])
  {
    var all := closed + open;
    forall j | 0 <= j < |runs| ensures Within(all, runs[j]) {
      if Within(closed, runs[j]) {
        var x :| x in closed && Contains(x, runs[j]);
        assert x in all;
      } else {
        var x :| x in open && Contains(x, runs[j]);
        assert x in all;
      }
    }
    forall i, j | 0 <= i < j < |all| ensures Apart(window, all[i], all[j]) || Apart(window, all[j], all[i]) {
      assert i < |closed| ==> all[i] in closed;
      assert j >= |closed| ==> all[j] in open;
    }
  }

  // ---- both phases ----

  /** Exactly one run serves the request. */
  ghost predicate ServedOnce(tasks: seq<Index>, runs: seq<Run>, q: Request)
    requires WfRuns(tasks, runs)
  {
    && Served(tasks, runs, q)
    && forall i, j :: 0 <= i < j < |runs| && Serves(tasks, runs[i], q) ==> !Serves(tasks, runs[j], q)
  }

  lemma ServedWithin(tasks: seq<Index>, runs: seq<Run>, merged: seq<Run>, q: Request)
    requires WfRuns(tasks, runs) && WfRuns(tasks, merged) && Served(tasks, runs, q)
    requires forall j :: 0 <= j < |runs| ==> Within(merged, runs[j])
    ensures Served(tasks, merged, q)
  {
    var i :| 0 <= i < |runs| && Serves(tasks, runs[i], q);
    var x :| x in merged && Contains(x, runs[i]);
    var j :| 0 <= j < |merged| && merged[j] == x;
    InLarger(tasks[x.ordinal].pages, runs[i].lo, runs[i].hi, x.lo, x.hi, q.page);
    assert Serves(tasks, merged[j], q);
  }

  lemma InLarger(pages: seq<nat>, lo: nat, hi: nat, lo': nat, hi': nat, p: nat)
    requires lo' <= lo <= hi <= hi' <= |pages| && p in pages[lo..hi]
    ensures p in pages[lo'..hi']
  {
    var k :| 0 <= k < |pages[lo..hi]| && pages[lo..hi][k] == p;
    assert pages[lo'..hi'][lo + k - lo'] == p;
  }

  lemma NotTwice(tasks: seq<Index>, window: nat, a: Run, b: Run, q: Request)
    requires WfIndexes(tasks) && WfRun(tasks, a) && WfRun(tasks, b) && Apart(window, a, b)
    ensures !(Serves(tasks, a, q) && Serves(tasks, b, q))
  {
    if a.ordinal == b.ordinal {
      var pages := tasks[a.ordinal].pages;
      forall i, j | a.lo <= i < a.hi && b.lo <= j < b.hi ensures pages[i] != pages[j] {
        assert i < j;
      }
      forall p | p in pages[a.lo..a.hi] ensures p !in pages[b.lo..b.hi] {
        var i :| 0 <= i < |pages[a.lo..a.hi]| && pages[a.lo..a.hi][i] == p;
        assert pages[a.lo + i] == p;
      }
    }
  }

  lemma OnlyOnce(tasks: seq<Index>, window: nat, requests: seq<Request>, made: seq<Run>, runs: seq<Run>, i: nat)
    requires WfIndexes(tasks) && WfRuns(tasks, runs) && Packed(tasks, requests, made, |requests|)
    requires Separate(window, runs) && (forall j :: 0 <= j < |made| ==> Within(runs, made[j])) && i < |requests|
    ensures ServedOnce(tasks, runs, requests[i])
  {
    assert Served(tasks, made, requests[i]);
    ServedWithin(tasks, made, runs, requests[i]);
    forall a, b | 0 <= a < b < |runs| && Serves(tasks, runs[a], requests[i])
      ensures !Serves(tasks, runs[b], requests[i]) {
      if Apart(window, runs[a], runs[b]) {
        NotTwice(tasks, window, runs[a], runs[b], requests[i]);
      } else {
        NotTwice(tasks, window, runs[b], runs[a], requests[i]);
      }
    }
  }

  ghost predicate Asked(tasks: seq<Index>, requests: seq<Request>, ordinal: nat, k: nat)
    requires ordinal < |tasks| && k < |tasks[ordinal].pages|
  {
    Request(ordinal, tasks[ordinal].pages[k]) in requests
  }

  /** Block k comes after a block of the run that was asked for, no more than the window away. */
  ghost predicate Near(tasks: seq<Index>, window: nat, requests: seq<Request>, x: Run, k: nat)
    requires WfRun(tasks, x) && x.lo <= k < x.hi
  {
    exists i :: x.lo <= i < k && Asked(tasks, requests, x.ordinal, i) &&
                Offset(tasks[x.ordinal], k) <= Offset(tasks[x.ordinal], i + 1) + window
  }

  /** The run begins and ends with blocks that were asked for, and those in it are near one another. */
  ghost predicate Economical(tasks: seq<Index>, window: nat, requests: seq<Request>, x: Run)
    requires WfRun(tasks, x)
  {
    && Asked(tasks, requests, x.ordinal, x.lo) && Asked(tasks, requests, x.ordinal, x.hi - 1)
    && forall k {:trigger Near(tasks, window, requests, x, k)} ::
      x.lo < k < x.hi && Asked(tasks, requests, x.ordinal, k) ==> Near(tasks, window, requests, x, k)
  }

  /** Two merged runs that share a block are one. */
  lemma SharedBlock(window: nat, merged: seq<Run>, x: Run, y: Run, k: nat)
    requires Separate(window, merged) && x in merged && y in merged && x.ordinal == y.ordinal
    requires x.lo <= k < x.hi && y.lo <= k < y.hi
    ensures x == y
  {
    var a :| 0 <= a < |merged| && merged[a] == x;
    var b :| 0 <= b < |merged| && merged[b] == y;
  }

  /** A block that was asked for lies in one of the runs made at first, and in no merged run but the one around it. */
  lemma BlockRun(tasks: seq<Index>, window: nat, requests: seq<Request>, runs: seq<Run>, merged: seq<Run>, x: Run,
          k: nat) returns (j: nat)
    requires WfIndexes(tasks) && WfRuns(tasks, merged) && Packed(tasks, requests, runs, |requests|)
    requires Separate(window, merged) && x in merged && x.lo <= k < x.hi && WfRun(tasks, x)
    requires (forall i :: 0 <= i < |runs| ==> Within(merged, runs[i])) && Asked(tasks, requests, x.ordinal, k)
    ensures j < |runs| && Contains(x, runs[j]) && runs[j].lo <= k < runs[j].hi
  {
    var pages := tasks[x.ordinal].pages;
    var q := Request(x.ordinal, pages[k]);
    assert Served(tasks, runs, q);
    j :| 0 <= j < |runs| && Serves(tasks, runs[j], q);
    var i :| 0 <= i < |pages[runs[j].lo..runs[j].hi]| && pages[runs[j].lo..runs[j].hi][i] == pages[k];
    assert pages[runs[j].lo + i] == pages[k] && runs[j].lo + i == k;
    var y :| y in merged && Contains(y, runs[j]);
    SharedBlock(window, merged, x, y, k);
  }

  lemma NearBy(tasks: seq<Index>, window: nat, requests: seq<Request>, x: Run, k: nat, i: nat)
    requires WfRun(tasks, x) && x.lo <= i < k < x.hi && Asked(tasks, requests, x.ordinal, i)
    requires Offset(tasks[x.ordinal], k) <= Offset(tasks[x.ordinal], i + 1) + window
    ensures Near(tasks, window, requests, x, k)
  {
  }

  /** A block behind the first of its run follows the one before it; the first follows an earlier run. */
  lemma BlockNear(tasks: seq<Index>, window: nat, requests: seq<Request>, runs: seq<Run>, x: Run, j: nat, k: nat)
    requires WfRuns(tasks, runs) && AllWanted(tasks, requests, runs) && WfRun(tasks, x) && x.lo < k < x.hi
    requires j < |runs| && Contains(x, runs[j]) && runs[j].lo <= k < runs[j].hi && Tight(window, runs, |runs|, x)
    ensures Near(tasks, window, requests, x, k)
  {
    if runs[j].lo < k {
      assert Wanted(tasks, requests, runs[j]);
      NearBy(tasks, window, requests, x, k, k - 1);
    } else {
      var i := Predecessor(window, runs, x, j);
      assert WfRun(tasks, runs[i]) && WfRun(tasks, runs[j]) && Wanted(tasks, requests, runs[i]);
      NearBy(tasks, window, requests, x, k, runs[i].hi - 1);
    }
  }

  lemma Predecessor(window: nat, runs: seq<Run>, x: Run, j: nat) returns (i: nat)
    requires Tight(window, runs, |runs|, x) && j < |runs| && Contains(x, runs[j]) && runs[j].lo != x.lo
    ensures i < |runs| && Contains(x, runs[i]) && runs[i].hi <= runs[j].lo && runs[j].from <= runs[i].to + window
  {
    assert Follows(window, runs, |runs|, x, runs[j]);
    i :| 0 <= i < |runs| && Contains(x, runs[i]) && runs[i].hi <= runs[j].lo && runs[j].from <= runs[i].to + window;
  }

  lemma TightIsEconomical(tasks: seq<Index>, window: nat, requests: seq<Request>, runs: seq<Run>, merged: seq<Run>,
          x: Run)
    requires WfIndexes(tasks) && WfRuns(tasks, merged) && Packed(tasks, requests, runs, |requests|)
    requires Separate(window, merged) && x in merged && WfRun(tasks, x) && AllWanted(tasks, requests, runs)
    requires (forall i :: 0 <= i < |runs| ==> Within(merged, runs[i])) && Tight(window, runs, |runs|, x)
    ensures Economical(tasks, window, requests, x)
  {
    var first :| 0 <= first < |runs| && Contains(x, runs[first]) && runs[first].lo == x.lo;
    assert WfRun(tasks, runs[first]) && Wanted(tasks, requests, runs[first]);
    var last :| 0 <= last < |runs| && Contains(x, runs[last]) && runs[last].hi == x.hi && runs[last].to == x.to;
    assert WfRun(tasks, runs[last]) && Wanted(tasks, requests, runs[last]);
    forall k | x.lo < k < x.hi && Asked(tasks, requests, x.ordinal, k) ensures Near(tasks, window, requests, x, k) {
      var j := BlockRun(tasks, window, requests, runs, merged, x, k);
      BlockNear(tasks, window, requests, runs, x, j, k);
    }
  }

  lemma EachOnce(tasks: seq<Index>, window: nat, requests: seq<Request>, made: seq<Run>, runs: seq<Run>)
    requires WfIndexes(tasks) && WfRuns(tasks, runs) && Packed(tasks, requests, made, |requests|)
    requires Separate(window, runs) && forall j :: 0 <= j < |made| ==> Within(runs, made[j])
    ensures forall i :: 0 <= i < |requests| ==> ServedOnce(tasks, runs, requests[i])
  {
    forall i | 0 <= i < |requests| ensures ServedOnce(tasks, runs, requests[i]) {
      OnlyOnce(tasks, window, requests, made, runs, i);
    }
  }

  lemma EachEconomical(tasks: seq<Index>, window: nat, requests: seq<Request>, made: seq<Run>, runs: seq<Run>)
    requires WfIndexes(tasks) && WfRuns(tasks, runs) && Made(tasks, requests, made, |requests|)
    requires Separate(window, runs) && forall j :: 0 <= j < |made| ==> Within(runs, made[j])
    requires AllTight(window, made, |made|, runs)
    ensures forall i {:trigger Economical(tasks, window, requests, runs[i])} ::
      0 <= i < |runs| ==> Economical(tasks, window, requests, runs[i])
  {
    forall i | 0 <= i < |runs| ensures Economical(tasks, window, requests, runs[i]) {
      TightIsEconomical(tasks, window, requests, made, runs, runs[i]);
    }
  }

  /**
   From missing pages to requests: every page is served by exactly one of them, they are out of each
   other's reach, and none spans a longer stretch that nobody asked for than the window.
   */
  method Coalesce(tasks: seq<Index>, window: nat, requests: seq<Request>) returns (runs: seq<Run>)
    requires WfIndexes(tasks) && WfRequests(tasks, requests)
    ensures WfRuns(tasks, runs) && Separate(window, runs) && OnlyOf(runs, Segments(requests))
    ensures forall i :: 0 <= i < |requests| ==> ServedOnce(tasks, runs, requests[i])
    ensures forall i {:trigger Economical(tasks, window, requests, runs[i])} ::
      0 <= i < |runs| ==> Economical(tasks, window, requests, runs[i])
  {
    var ok, made := Runs(tasks, requests);
    runs := Merge(tasks, window, made, Segments(requests));
    EachOnce(tasks, window, requests, made, runs);
    EachEconomical(tasks, window, requests, made, runs);
  }
}
