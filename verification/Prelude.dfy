/** Small value types shared by every module of the model. */
module Prelude {

  datatype Option<+T> = None | Some(value: T)

  /** `longer` ends with `tail`. */
  ghost predicate EndsWith<T>(longer: seq<T>, tail: seq<T>) {
    |tail| <= |longer| && longer[|longer| - |tail|..] == tail
  }

  lemma EndsWithTransitive<T>(a: seq<T>, b: seq<T>, c: seq<T>)
    requires EndsWith(b, a) && EndsWith(c, b)
    ensures EndsWith(c, a)
  {
    assert c[|c| - |a|..] == c[|c| - |b|..][|b| - |a|..];
  }

  /** What a sequence ends with keeps its place counted from the end. */
  lemma EndsWithAt<T>(longer: seq<T>, tail: seq<T>, i: nat)
    requires EndsWith(longer, tail) && i < |tail|
    ensures longer[|longer| - |tail| + i] == tail[i]
  {
    assert longer[|longer| - |tail|..][i] == tail[i];
  }

  /** Strictly increasing, as page sets and frame offsets must be. */
  predicate StrictlyIncreasing(s: seq<nat>) {
    forall i, j :: 0 <= i < j < |s| ==> s[i] < s[j]
  }

  /** What a loop has gathered in front of what the rest gives. */
  ghost function Behind<T, U>(done: seq<T>, r: Option<(seq<T>, U)>): Option<(seq<T>, U)> {
    if r.None? then None else Some((done + r.value.0, r.value.1))
  }

  lemma MoreBehind<T, U>(done: seq<T>, x: T, more: Option<(seq<T>, U)>)
    ensures Behind(done, if more.None? then None else Some(([x] + more.value.0, more.value.1))) ==
      Behind(done + [x], more)
  {
    if more.Some? {
      assert done + ([x] + more.value.0) == done + [x] + more.value.0;
    }
  }

  lemma NoneBehind<T, U>(r: Option<(seq<T>, U)>)
    ensures Behind([], r) == r
  {
    if r.Some? {
      assert [] + r.value.0 == r.value.0;
    }
  }

  // ---- runs of a machine ----

  /** The machine comes from s to t by these steps; `next` says what a step makes of a state, if it can be taken. */
  ghost predicate Steps<S, A>(next: (S, A) -> Option<S>, s: S, steps: seq<A>, t: S)
    decreases |steps|
  {
    if steps == [] then s == t
    else next(s, steps[0]).Some? && Steps(next, next(s, steps[0]).value, steps[1..], t)
  }

  lemma {:induction false} StepsAppend<S, A>(next: (S, A) -> Option<S>, s: S, first: seq<A>, u: S, second: seq<A>, t: S)
    requires Steps(next, s, first, u) && Steps(next, u, second, t)
    ensures Steps(next, s, first + second, t)
    decreases |first|
  {
    if first == [] {
      assert first + second == second;
    } else {
      assert (first + second)[1..] == first[1..] + second;
      StepsAppend(next, next(s, first[0]).value, first[1..], u, second, t);
    }
  }

  /** Some steps lead from s to t. */
  ghost predicate Comes<S, A(!new)>(next: (S, A) -> Option<S>, s: S, t: S) {
    exists steps: seq<A> :: Steps(next, s, steps, t)
  }

  lemma ComesThen<S, A(!new)>(next: (S, A) -> Option<S>, s: S, u: S, t: S)
    requires Comes(next, s, u) && Comes(next, u, t)
    ensures Comes(next, s, t)
  {
    var first :| Steps(next, s, first, u);
    var second :| Steps(next, u, second, t);
    StepsAppend(next, s, first, u, second, t);
  }

  lemma ComesBy<S, A(!new)>(next: (S, A) -> Option<S>, s: S, step: A, t: S)
    requires next(s, step) == Some(t)
    ensures Comes(next, s, t)
  {
    assert [step][1..] == [];
    assert Steps(next, t, [], t);
    assert Steps(next, s, [step], t);
  }
}
