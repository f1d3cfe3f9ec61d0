/**
 Two ways to find the bytes of a page in a chain of commits. Replay applies every segment, oldest
 commit first. The lazy lookup takes the first segment, newest commit first, whose page set has the page.
 */
module PageReplay {
  import opened Prelude

  /** A segment's page set, the bytes of each of its pages, and whether its frames can be fetched one by one. */
  datatype Segment<P> = Segment(pages: seq<nat>, data: seq<P>, ranged: bool)

  ghost predicate WfSegment<P>(s: Segment<P>) {
    |s.pages| == |s.data| && StrictlyIncreasing(s.pages)
  }

  /** Commits of a chain, newest first; segments of a commit in manifest order. */
  type Chain<P> = seq<seq<Segment<P>>>

  ghost predicate WfSegments<P>(segments: seq<Segment<P>>) {
    forall i :: 0 <= i < |segments| ==> WfSegment(segments[i])
  }

  ghost predicate WfChain<P>(chain: Chain<P>) {
    forall m :: 0 <= m < |chain| ==> WfSegments(chain[m])
  }

  ghost function Position(pages: seq<nat>, p: nat): (i: nat)
    requires p in pages
    ensures i < |pages| && pages[i] == p
  {
    var i :| 0 <= i < |pages| && pages[i] == p;
    i
  }

  ghost function Frame<P>(s: Segment<P>, p: nat): P
    requires WfSegment(s) && p in s.pages
  {
    s.data[Position(s.pages, p)]
  }

  // ---- replay ----

  ghost function Overlay<P>(image: map<nat, P>, s: Segment<P>): map<nat, P>
    requires WfSegment(s)
  {
    map p | p in image.Keys + (set q | q in s.pages) :: if p in s.pages then Frame(s, p) else image[p]
  }

  ghost function ReplaySegments<P>(segments: seq<Segment<P>>, image: map<nat, P>): map<nat, P>
    requires WfSegments(segments)
    decreases |segments|
  {
    if segments == [] then image
    else Overlay(ReplaySegments(segments[..|segments| - 1], image), segments[|segments| - 1])
  }

  ghost function Replay<P>(chain: Chain<P>, base: map<nat, P>): map<nat, P>
    requires WfChain(chain)
    decreases |chain|
  {
    if chain == [] then base else ReplaySegments(chain[0], Replay(chain[1..], base))
  }

  ghost function Lookup<P>(image: map<nat, P>, p: nat): Option<P> {
    if p in image then Some(image[p]) else None
  }

  // ---- lazy lookup ----

  /** The first segment that claims a page. */
  ghost function Claimant<P>(segments: seq<Segment<P>>, p: nat): (r: Option<nat>)
    ensures r.Some? ==> r.value < |segments| && p in segments[r.value].pages
    ensures r.None? ==> forall i :: 0 <= i < |segments| ==> p !in segments[i].pages
    ensures r.Some? ==> forall i :: 0 <= i < r.value ==> p !in segments[i].pages
  {
    if segments == [] then None
    else if p in segments[0].pages then Some(0)
    else var r := Claimant(segments[1..], p);
      assert forall i :: 1 <= i < |segments| ==> segments[1..][i - 1] == segments[i];
      if r.None? then None else Some(r.value + 1)
  }

  /** The segments with a page set, newest commit first: the order of the fetch tasks. */
  ghost function Tasks<P>(chain: Chain<P>): seq<Segment<P>>
    decreases |chain|
  {
    if chain == [] then [] else Known(chain[0]) + Tasks(chain[1..])
  }

  ghost function Known<P>(segments: seq<Segment<P>>): (r: seq<Segment<P>>)
    decreases |segments|
  {
    if segments == [] then []
    else
      var init, last := Known(segments[..|segments| - 1]), segments[|segments| - 1];
      if last.pages == [] then init else init + [last]
  }

  ghost function Wanted<P>(tasks: seq<Segment<P>>, base: map<nat, P>, p: nat): Option<P>
    requires WfSegments(tasks)
  {
    var c := Claimant(tasks, p);
    if c.Some? then Some(Frame(tasks[c.value], p)) else Lookup(base, p)
  }

  // ---- the two agree ----

  ghost predicate Claims<P>(segments: seq<Segment<P>>, p: nat) {
    exists i :: 0 <= i < |segments| && p in segments[i].pages
  }

  /** The last segment that claims a page. */
  ghost function LastFrame<P>(segments: seq<Segment<P>>, p: nat): P
    requires WfSegments(segments) && Claims(segments, p)
    decreases |segments|
  {
    var last := segments[|segments| - 1];
    if p in last.pages then Frame(last, p)
    else
      assert Claims(segments[..|segments| - 1], p) by {
        var i :| 0 <= i < |segments| && p in segments[i].pages;
        assert segments[..|segments| - 1][i] == segments[i];
      }
      LastFrame(segments[..|segments| - 1], p)
  }

  ghost function FirstFrame<P>(segments: seq<Segment<P>>, p: nat): P
    requires WfSegments(segments) && Claims(segments, p)
  {
    Frame(segments[Claimant(segments, p).value], p)
  }

  /** In the newest commit that claims the page, the first and the last claiming segment hold the same bytes. */
  ghost predicate Unambiguous<P>(chain: Chain<P>, p: nat)
    requires WfChain(chain)
    decreases |chain|
  {
    chain != [] ==>
      if Claims(chain[0], p) then FirstFrame(chain[0], p) == LastFrame(chain[0], p)
      else Unambiguous(chain[1..], p)
  }

  /** No two segments of a commit share a page. */
  ghost predicate Disjoint<P>(segments: seq<Segment<P>>) {
    forall i, j, p :: 0 <= i < j < |segments| && p in segments[i].pages ==> p !in segments[j].pages
  }

  lemma {:induction false} ReplayedSegments<P>(segments: seq<Segment<P>>, image: map<nat, P>, p: nat)
    requires WfSegments(segments)
    ensures Lookup(ReplaySegments(segments, image), p) ==
      if Claims(segments, p) then Some(LastFrame(segments, p)) else Lookup(image, p)
    decreases |segments|
  {
    if segments != [] {
      var last := segments[|segments| - 1];
      var init := segments[..|segments| - 1];
      ReplayedSegments(init, image, p);
      assert forall i :: 0 <= i < |init| ==> init[i] == segments[i];
      if p in last.pages {
        assert Claims(segments, p);
      } else if Claims(segments, p) {
        var i :| 0 <= i < |segments| && p in segments[i].pages;
        assert p in init[i].pages;
      }
    }
  }

  lemma {:induction false} ClaimantAppend<P>(a: seq<Segment<P>>, b: seq<Segment<P>>, p: nat)
    ensures Claimant(a + b, p) ==
      if Claimant(a, p).Some? then Claimant(a, p)
      else if Claimant(b, p).Some? then Some(|a| + Claimant(b, p).value) else None
    decreases |a|
  {
    if a == [] {
      assert a + b == b;
    } else {
      assert (a + b)[1..] == a[1..] + b;
      ClaimantAppend(a[1..], b, p);
    }
  }

  ghost function Found<P>(segments: seq<Segment<P>>, p: nat): Option<Segment<P>> {
    if Claimant(segments, p).Some? then Some(segments[Claimant(segments, p).value]) else None
  }

  lemma FoundAppend<P>(a: seq<Segment<P>>, b: seq<Segment<P>>, p: nat)
    ensures Found(a + b, p) == if Found(a, p).Some? then Found(a, p) else Found(b, p)
  {
    ClaimantAppend(a, b, p);
  }

  /** Leaving out segments without a page set loses no page. */
  lemma {:induction false} KnownFinds<P>(segments: seq<Segment<P>>, p: nat)
    requires WfSegments(segments)
    ensures WfSegments(Known(segments))
    ensures Found(Known(segments), p) == Found(segments, p)
    decreases |segments|
  {
    if segments != [] {
      var last := segments[|segments| - 1];
      var init := segments[..|segments| - 1];
      KnownFinds(init, p);
      FoundAppend(init, [last], p);
      assert init + [last] == segments;
      if last.pages != [] {
        FoundAppend(Known(init), [last], p);
      }
    }
  }

  /** The lazy lookup finds what replay leaves, exactly for the pages that are claimed unambiguously. */
  lemma {:induction false} LookupIsReplay<P>(chain: Chain<P>, base: map<nat, P>, p: nat)
    requires WfChain(chain)
    ensures WfSegments(Tasks(chain))
    ensures Wanted(Tasks(chain), base, p) == Lookup(Replay(chain, base), p) <==> Unambiguous(chain, p)
    decreases |chain|
  {
    if chain != [] {
      LookupIsReplay(chain[1..], base, p);
      ReplayedSegments(chain[0], Replay(chain[1..], base), p);
      KnownFinds(chain[0], p);
      FoundAppend(Known(chain[0]), Tasks(chain[1..]), p);
    }
  }

  lemma DisjointIsUnambiguous<P>(chain: Chain<P>, p: nat)
    requires WfChain(chain) && forall m :: 0 <= m < |chain| ==> Disjoint(chain[m])
    ensures Unambiguous(chain, p)
    decreases |chain|
  {
    if chain != [] {
      if Claims(chain[0], p) {
        OneClaimant(chain[0], p);
      } else {
        DisjointIsUnambiguous(chain[1..], p);
      }
    }
  }

  lemma OneClaimant<P>(segments: seq<Segment<P>>, p: nat)
    requires WfSegments(segments) && Disjoint(segments) && Claims(segments, p)
    ensures FirstFrame(segments, p) == LastFrame(segments, p)
  {
    LastIs(segments, p, Claimant(segments, p).value);
  }

  lemma {:induction false} LastIs<P>(segments: seq<Segment<P>>, p: nat, i: nat)
    requires WfSegments(segments) && i < |segments| && p in segments[i].pages
    requires forall j :: i < j < |segments| ==> p !in segments[j].pages
    ensures Claims(segments, p) && LastFrame(segments, p) == Frame(segments[i], p)
    decreases |segments|
  {
    if i < |segments| - 1 {
      LastIs(segments[..|segments| - 1], p, i);
    }
  }

  // ---- a condition on page sets alone ----

  /** At most one segment of a commit claims the page. */
  ghost predicate Once<P>(segments: seq<Segment<P>>, p: nat) {
    forall i, j :: 0 <= i < j < |segments| && p in segments[i].pages ==> p !in segments[j].pages
  }

  /** Exactly one segment of the newest commit that claims the page does. */
  ghost predicate ClaimedOnce<P>(chain: Chain<P>, p: nat)
    decreases |chain|
  {
    chain != [] ==> if Claims(chain[0], p) then Once(chain[0], p) else ClaimedOnce(chain[1..], p)
  }

  /** The same page sets, whatever the bytes. */
  ghost predicate SameSets<P>(a: seq<Segment<P>>, b: seq<Segment<P>>) {
    |a| == |b| && forall i :: 0 <= i < |a| ==> a[i].pages == b[i].pages
  }

  ghost predicate SameShape<P>(a: Chain<P>, b: Chain<P>) {
    |a| == |b| && forall m :: 0 <= m < |a| ==> SameSets(a[m], b[m])
  }

  lemma SameClaims<P>(a: seq<Segment<P>>, b: seq<Segment<P>>, p: nat)
    requires SameSets(a, b)
    ensures Claims(a, p) <==> Claims(b, p)
    ensures Once(a, p) <==> Once(b, p)
  {
    if Claims(a, p) {
      var i :| 0 <= i < |a| && p in a[i].pages;
      assert p in b[i].pages;
    }
    if Claims(b, p) {
      var i :| 0 <= i < |b| && p in b[i].pages;
      assert p in a[i].pages;
    }
  }

  lemma {:induction false} OnceIsUnambiguous<P>(chain: Chain<P>, given: Chain<P>, p: nat)
    requires WfChain(chain) && SameShape(chain, given) && ClaimedOnce(given, p)
    ensures Unambiguous(chain, p)
    decreases |chain|
  {
    if chain != [] {
      SameClaims(chain[0], given[0], p);
      if Claims(chain[0], p) {
        LastIs(chain[0], p, Claimant(chain[0], p).value);
      } else {
        OnceIsUnambiguous(chain[1..], given[1..], p);
      }
    }
  }

  /** One byte everywhere, but for one segment. */
  ghost function Filled<P>(segments: seq<Segment<P>>, x: P, at: nat, y: P): seq<Segment<P>> {
    seq(|segments|, i requires 0 <= i < |segments| =>
      Segment(segments[i].pages, seq(|segments[i].pages|, _ => if i == at then y else x), segments[i].ranged))
  }

  lemma FilledSets<P>(segments: seq<Segment<P>>, x: P, at: nat, y: P)
    requires WfSegments(segments)
    ensures WfSegments(Filled(segments, x, at, y)) && SameSets(Filled(segments, x, at, y), segments)
  {
    forall i | 0 <= i < |segments| ensures WfSegment(Filled(segments, x, at, y)[i]) {
      assert WfSegment(segments[i]);
    }
  }

  lemma FirstOther<P>(c: seq<Segment<P>>, x: P, p: nat, first: nat, last: nat)
    requires WfSegments(c) && first < last < |c| && p in c[first].pages
    requires forall i :: 0 <= i < last ==> forall k :: 0 <= k < |c[i].data| ==> c[i].data[k] == x
    ensures Claims(c, p) && FirstFrame(c, p) == x
  {
    assert Claimant(c, p).Some? && Claimant(c, p).value <= first;
  }

  lemma FilledFrames<P>(segments: seq<Segment<P>>, x: P, y: P, p: nat, first: nat, last: nat, c: seq<Segment<P>>)
    requires WfSegments(segments) && first < last < |segments| && c == Filled(segments, x, last, y)
    requires p in segments[first].pages && p in segments[last].pages
    requires forall j :: last < j < |segments| ==> p !in segments[j].pages
    ensures WfSegments(c) && SameSets(c, segments) && Claims(c, p)
    ensures FirstFrame(c, p) == x && LastFrame(c, p) == y
  {
    FilledSets(segments, x, last, y);
    FirstOther(c, x, p, first, last);
    LastIs(c, p, last);
  }

  lemma {:induction false} LastClaimant<P>(segments: seq<Segment<P>>, p: nat, from: nat) returns (last: nat)
    requires from < |segments| && p in segments[from].pages
    ensures from <= last < |segments| && p in segments[last].pages
    ensures forall j :: last < j < |segments| ==> p !in segments[j].pages
    decreases |segments| - from
  {
    if j :| from < j < |segments| && p in segments[j].pages {
      last := LastClaimant(segments, p, j);
    } else {
      last := from;
    }
  }

  lemma AmbiguousCommit<P>(segments: seq<Segment<P>>, p: nat, x: P, y: P) returns (c: seq<Segment<P>>)
    requires WfSegments(segments) && !Once(segments, p) && x != y
    ensures WfSegments(c) && SameSets(c, segments) && Claims(c, p) && FirstFrame(c, p) != LastFrame(c, p)
  {
    var i, j :| 0 <= i < j < |segments| && p in segments[i].pages && p in segments[j].pages;
    var last := LastClaimant(segments, p, j);
    c := Filled(segments, x, last, y);
    FilledFrames(segments, x, y, p, i, last, c);
  }

  lemma ShapeFront<P>(c: seq<Segment<P>>, rest: Chain<P>, given: Chain<P>)
    requires given != [] && WfSegments(c) && SameSets(c, given[0]) && WfChain(rest) && SameShape(rest, given[1..])
    ensures WfChain([c] + rest) && SameShape([c] + rest, given) && ([c] + rest)[1..] == rest
  {
    var chain := [c] + rest;
    forall m | 0 <= m < |chain| ensures WfSegments(chain[m]) && SameSets(chain[m], given[m]) {
      if m > 0 {
        assert chain[m] == rest[m - 1] && given[m] == given[1..][m - 1];
      }
    }
  }

  /** Bytes for which the lookup and replay differ. */
  lemma {:induction false} AmbiguousBytes<P>(given: Chain<P>, p: nat, x: P, y: P) returns (chain: Chain<P>)
    requires WfChain(given) && !ClaimedOnce(given, p) && x != y
    ensures WfChain(chain) && SameShape(chain, given) && !Unambiguous(chain, p)
    decreases |given|
  {
    if Claims(given[0], p) {
      var c := AmbiguousCommit(given[0], p, x, y);
      ShapeFront(c, given[1..], given);
      chain := [c] + given[1..];
    } else {
      var rest := AmbiguousBytes(given[1..], p, x, y);
      ShapeFront(given[0], rest, given);
      chain := [given[0]] + rest;
    }
  }

  /**
   From the page sets alone: the lookup finds what replay leaves, whatever the bytes are, if and only if
   the newest commit that claims the page has one segment that does.
   */
  lemma ClaimedOnceExact<P(!new)>(given: Chain<P>, base: map<nat, P>, p: nat, x: P, y: P)
    requires WfChain(given) && x != y
    ensures (forall chain: Chain<P> :: WfChain(chain) && SameShape(chain, given) ==> Agrees(chain, base, p)) <==>
      ClaimedOnce(given, p)
  {
    if ClaimedOnce(given, p) {
      forall chain: Chain<P> | WfChain(chain) && SameShape(chain, given) ensures Agrees(chain, base, p) {
        OnceIsUnambiguous(chain, given, p);
        LookupIsReplay(chain, base, p);
      }
    } else {
      var chain := AmbiguousBytes(given, p, x, y);
      LookupIsReplay(chain, base, p);
      assert !Agrees(chain, base, p);
    }
  }

  ghost predicate Agrees<P>(chain: Chain<P>, base: map<nat, P>, p: nat)
    requires WfChain(chain)
  {
    WfSegments(Tasks(chain)) && Wanted(Tasks(chain), base, p) == Lookup(Replay(chain, base), p)
  }

  /** One commit with two segments for page 1: the lookup takes the first, replay leaves the second. */
  lemma TwoClaimants()
    ensures var chain := [[Segment([1], ['a'], false), Segment([1], ['b'], false)]];
      WfChain(chain) && WfSegments(Tasks(chain)) && Wanted(Tasks(chain), map[], 1) == Some('a') &&
      Lookup(Replay(chain, map[]), 1) == Some('b')
  {
    var first, second := Segment([1], ['a'], false), Segment([1], ['b'], false);
    var commit := [first, second];
    var chain := [commit];
    assert 1 in first.pages && 1 in second.pages;
    LookupIsReplay(chain, map[], 1);
    LastIs(commit, 1, 1);
    assert chain[1..] == [];
    ReplayedSegments(commit, map[], 1);
    KnownFinds(commit, 1);
    FoundAppend(Known(commit), [], 1);
    assert Known(commit) + [] == Known(commit);
  }
}
