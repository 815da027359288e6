/** The array operations the services lean on (`filter`, `findIndex`),
    stated once over sequences. */
module Sequences {
  import opened Optional

  /** `s.filter(keep)`: the elements that satisfy `keep`, in their original order. */
  function Filter<T(==,!new)>(s: seq<T>, keep: T -> bool): (r: seq<T>)
    ensures |r| <= |s|
    ensures forall x :: x in r <==> x in s && keep(x)
    decreases |s|
  {
    if s == [] then []
    else
      assert s == s[..|s| - 1] + [s[|s| - 1]];
      var init := Filter(s[..|s| - 1], keep);
      if keep(s[|s| - 1]) then init + [s[|s| - 1]] else init
  }

  /** The positions j of `s` with `keep(s[j])`, in increasing order. */
  function Matches<T>(s: seq<T>, keep: T -> bool): (idx: seq<nat>)
    ensures forall k :: 0 <= k < |idx| ==> idx[k] < |s| && keep(s[idx[k]])
    ensures forall k, l :: 0 <= k < l < |idx| ==> idx[k] < idx[l]
    decreases |s|
  {
    if s == [] then []
    else
      var init := Matches(s[..|s| - 1], keep);
      if keep(s[|s| - 1]) then init + [|s| - 1] else init
  }

  /** No matching position is missed. */
  lemma {:induction false} MatchesComplete<T>(s: seq<T>, keep: T -> bool)
    ensures forall j :: 0 <= j < |s| && keep(s[j]) ==> j in Matches(s, keep)
    decreases |s|
  {
    if s != [] {
      MatchesComplete(s[..|s| - 1], keep);
    }
  }

  /** Filter picks exactly the matching positions, in order: it keeps every
      element that satisfies `keep`, drops every other, and reorders nothing. */
  lemma {:induction false} FilterSelectsMatches<T(!new)>(s: seq<T>, keep: T -> bool)
    ensures |Filter(s, keep)| == |Matches(s, keep)|
    ensures forall k :: 0 <= k < |Filter(s, keep)| ==>
      Filter(s, keep)[k] == s[Matches(s, keep)[k]]
    decreases |s|
  {
    if s != [] {
      FilterSelectsMatches(s[..|s| - 1], keep);
    }
  }

  /** Filtering distributes over concatenation: order is preserved piecewise. */
  lemma {:induction false} FilterAppend<T(!new)>(a: seq<T>, b: seq<T>, keep: T -> bool)
    ensures Filter(a + b, keep) == Filter(a, keep) + Filter(b, keep)
    decreases |b|
  {
    if b == [] {
      assert a + b == a;
    } else {
      var b' := b[..|b| - 1];
      assert (a + b)[..|a + b| - 1] == a + b';
      FilterAppend(a, b', keep);
    }
  }

  /** Filtering twice is filtering once by the conjunction. */
  lemma {:induction false} FilterFilter<T(!new)>(s: seq<T>, p: T -> bool, q: T -> bool, pq: T -> bool)
    requires forall x :: pq(x) == (p(x) && q(x))
    ensures Filter(Filter(s, p), q) == Filter(s, pq)
    decreases |s|
  {
    if s != [] {
      var s' := s[..|s| - 1];
      var x := s[|s| - 1];
      FilterFilter(s', p, q, pq);
      if p(x) {
        assert Filter(s, p) == Filter(s', p) + [x];
        FilterAppend(Filter(s', p), [x], q);
        assert Filter([x], q) == Filter([], q) + (if q(x) then [x] else []);
      }
    }
  }

  /** A filter comes out empty exactly when no element satisfies it. */
  lemma FilterEmpty<T(!new)>(s: seq<T>, keep: T -> bool)
    ensures Filter(s, keep) == [] <==> forall j :: 0 <= j < |s| ==> !keep(s[j])
  {
    if Filter(s, keep) != [] {
      assert Filter(s, keep)[0] in Filter(s, keep);
    }
  }

  /** A filter keeps something exactly when `findIndex` finds a position,
      and the first element it keeps is the one at that position. */
  lemma {:induction false} FilterFirst<T(!new)>(s: seq<T>, keep: T -> bool)
    ensures Filter(s, keep) != [] <==> FirstIndex(s, keep).Some?
    ensures Filter(s, keep) != [] ==> Filter(s, keep)[0] == s[FirstIndex(s, keep).value]
    decreases |s|
  {
    if s != [] {
      var x := s[0];
      assert [x] + s[1..] == s;
      FilterAppend([x], s[1..], keep);
      assert [x][..0] == [];
      assert Filter([x], keep) == (if keep(x) then [x] else []);
      FilterFirst(s[1..], keep);
    }
  }

  /** `s.findIndex(p)`, with -1 written as None: the first position whose
      element satisfies `p`. */
  function FirstIndex<T>(s: seq<T>, p: T -> bool): (r: Option<nat>)
    ensures r.Some? ==> r.value < |s| && p(s[r.value])
    ensures r.Some? ==> forall j :: 0 <= j < r.value ==> !p(s[j])
    ensures r.None? ==> forall j :: 0 <= j < |s| ==> !p(s[j])
  {
    if s == [] then None
    else if p(s[0]) then Some(0)
    else
      match FirstIndex(s[1..], p)
      case None => None
      case Some(i) => Some(i + 1)
  }
}
