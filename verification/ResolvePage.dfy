/** Searching the page index: a binary search per segment, newest segment first. */
module ResolvePage {
  import opened Prelude
  import opened PageReplay

  /** The first index whose page is not below p. */
  method LowerBound(pages: seq<nat>, p: nat) returns (lo: nat)
    requires StrictlyIncreasing(pages)
    ensures lo <= |pages|
    ensures forall i :: 0 <= i < lo ==> pages[i] < p
    ensures forall i :: lo <= i < |pages| ==> pages[i] >= p
    ensures p in pages <==> lo < |pages| && pages[lo] == p
  {
    lo := 0;
    var hi := |pages|;
    while lo < hi
      invariant lo <= hi <= |pages|
      invariant forall i :: 0 <= i < lo ==> pages[i] < p
      invariant forall i :: hi <= i < |pages| ==> pages[i] >= p
    {
      var mid := lo + (hi - lo) / 2;
      if pages[mid] < p {
        lo := mid + 1;
      } else {
        hi := mid;
      }
    }
  }

  lemma {:induction false} KnownPrefix<P>(segments: seq<Segment<P>>, s: nat)
    requires s <= |segments|
    ensures Known(segments[..s]) <= Known(segments)
    decreases |segments|
  {
    if s == |segments| {
      assert segments[..s] == segments;
    } else {
      var init := segments[..|segments| - 1];
      assert init[..s] == segments[..s];
      KnownPrefix(init, s);
    }
  }

  lemma KnownNext<P>(segments: seq<Segment<P>>, s: nat, p: nat)
    requires s < |segments| && Claimant(Known(segments[..s]), p).None?
    ensures segments[s].pages == [] ==> Known(segments[..s + 1]) == Known(segments[..s])
    ensures segments[s].pages != [] ==> Known(segments[..s + 1]) == Known(segments[..s]) + [segments[s]]
    ensures p in segments[s].pages ==> Claimant(Known(segments), p) == Some(|Known(segments[..s])|)
    ensures p !in segments[s].pages ==> Claimant(Known(segments[..s + 1]), p).None?
  {
    assert segments[..s + 1][..s] == segments[..s];
    ClaimantAppend(Known(segments[..s]), [segments[s]], p);
    if p in segments[s].pages {
      KnownPrefix(segments, s + 1);
      var known := Known(segments[..s + 1]);
      ClaimantAppend(known, Known(segments)[|known|..], p);
      assert known + Known(segments)[|known|..] == Known(segments);
    }
  }

  /** Search the segments of one commit; `count` is the number of them with a page set. */
  method ResolveIn<P>(segments: seq<Segment<P>>, p: nat) returns (r: Option<nat>, count: nat)
    requires WfSegments(segments)
    ensures r == Claimant(Known(segments), p)
    ensures r.None? ==> count == |Known(segments)|
  {
    count := 0;
    var s := 0;
    while s < |segments|
      invariant 0 <= s <= |segments|
      invariant count == |Known(segments[..s])| && Claimant(Known(segments[..s]), p).None?
    {
      KnownNext(segments, s, p);
      if segments[s].pages != [] {
        var lo := LowerBound(segments[s].pages, p);
        if lo < |segments[s].pages| && segments[s].pages[lo] == p {
          return Some(count), count;
        }
        count := count + 1;
      }
      s := s + 1;
    }
    assert segments[..s] == segments;
    r := None;
  }

  ghost function Shift(r: Option<nat>, n: nat): Option<nat> {
    if r.None? then None else Some(r.value + n)
  }

  /** The ordinal of the newest segment that claims a page. */
  method Resolve<P>(chain: Chain<P>, p: nat) returns (r: Option<nat>)
    requires WfChain(chain)
    ensures r == Claimant(Tasks(chain), p)
  {
    var ordinal := 0;
    var m := 0;
    assert chain[0..] == chain;
    while m < |chain|
      invariant 0 <= m <= |chain|
      invariant Claimant(Tasks(chain), p) == Shift(Claimant(Tasks(chain[m..]), p), ordinal)
    {
      assert chain[m..][0] == chain[m] && chain[m..][1..] == chain[m + 1..];
      ClaimantAppend(Known(chain[m]), Tasks(chain[m + 1..]), p);
      var found, count := ResolveIn(chain[m], p);
      if found.Some? {
        return Some(ordinal + found.value);
      }
      ordinal, m := ordinal + count, m + 1;
    }
    r := None;
  }
}
