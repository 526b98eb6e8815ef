/**
  The two array operations the application leans on everywhere: `find`
  (the first element satisfying a test) and `filter` (every element
  satisfying it, in order).
 */
module Collections {
  import opened Types

  /** The index of the first element of `s` satisfying `p`, if any. */
  function FirstIndex<T>(s: seq<T>, p: T -> bool): (r: Option<nat>)
    ensures r.Some? ==> r.value < |s| && p(s[r.value])
    ensures r.Some? ==> forall j :: 0 <= j < r.value ==> !p(s[j])
    ensures r.None? <==> forall j :: 0 <= j < |s| ==> !p(s[j])
    decreases |s|
  {
    if |s| == 0 then None
    else if p(s[0]) then Some(0)
    else match FirstIndex(s[1..], p)
      case None => None
      case Some(k) => Some(k + 1)
  }

  /** The first element of `s` satisfying `p`: JavaScript's `Array.prototype.find`. */
  function Find<T(!new)>(s: seq<T>, p: T -> bool): (r: Option<T>)
    ensures r.None? <==> forall x :: x in s ==> !p(x)
    ensures r.Some? ==> r.value in s && p(r.value)
    // the first element that passes, not just any
    ensures r.Some? ==> exists k :: 0 <= k < |s| && s[k] == r.value && forall j :: 0 <= j < k ==> !p(s[j])
  {
    match FirstIndex(s, p)
    case None => None
    case Some(k) => Some(s[k])
  }

  /** The linear scan behind `find`, proved to stop at the first match. */
  method Scan<T>(s: seq<T>, p: T -> bool) returns (r: Option<nat>)
    ensures r == FirstIndex(s, p)
  {
    var i := 0;
    while i < |s|
      invariant 0 <= i <= |s|
      invariant forall j :: 0 <= j < i ==> !p(s[j])
    {
      if p(s[i]) {
        return Some(i);
      }
      i := i + 1;
    }
    return None;
  }

  /** `find` itself: the scan, then the element it stopped at. */
  method FindFirst<T(!new)>(s: seq<T>, p: T -> bool) returns (r: Option<T>)
    ensures r == Find(s, p)
  {
    var k := Scan(s, p);
    r := if k.Some? then Some(s[k.value]) else None;
  }

  /** Every element of `s` satisfying `p`, in order: `Array.prototype.filter`. */
  function Filter<T(!new)>(s: seq<T>, p: T -> bool): (r: seq<T>)
    ensures |r| <= |s|
    ensures forall x :: x in r <==> x in s && p(x)
    decreases |s|
  {
    if |s| == 0 then []
    else (if p(s[0]) then [s[0]] else []) + Filter(s[1..], p)
  }

  /** Filtering a concatenation filters each part and keeps them in order. */
  lemma {:induction false} FilterAppend<T(!new)>(a: seq<T>, b: seq<T>, p: T -> bool)
    ensures Filter(a + b, p) == Filter(a, p) + Filter(b, p)
    decreases |a|
  {
    if |a| == 0 {
      assert a + b == b;
    } else {
      assert (a + b)[1..] == a[1..] + b;
      FilterAppend(a[1..], b, p);
    }
  }

  /** A test every element passes keeps the whole sequence. */
  lemma {:induction false} FilterAll<T(!new)>(s: seq<T>, p: T -> bool)
    requires forall x <- s :: p(x)
    ensures Filter(s, p) == s
    decreases |s|
  {
    if |s| > 0 {
      assert forall x <- s[1..] :: x in s;
      FilterAll(s[1..], p);
    }
  }

  /** The positions `i` with `from <= i < |s|` whose element satisfies `p`, ascending. */
  function Matching<T>(s: seq<T>, p: T -> bool, from: nat): seq<nat>
    requires from <= |s|
    decreases |s| - from
  {
    if from == |s| then []
    else (if p(s[from]) then [from] else []) + Matching(s, p, from + 1)
  }

  /** The matching positions are in range, strictly increasing, and exactly those whose element satisfies `p`. */
  lemma {:induction false} MatchingPositions<T>(s: seq<T>, p: T -> bool, from: nat)
    requires from <= |s|
    ensures var idx := Matching(s, p, from);
      && (forall k :: 0 <= k < |idx| ==> from <= idx[k] < |s|)
      && (forall k, l :: 0 <= k < l < |idx| ==> idx[k] < idx[l])
      && (forall i :: from <= i < |s| ==> (i in idx <==> p(s[i])))
    decreases |s| - from
  {
    if from < |s| {
      MatchingPositions(s, p, from + 1);
    }
  }

  /** The `k`-th element `Filter` keeps is the element at the `k`-th matching position. */
  lemma {:induction false} FilterAtMatching<T(!new)>(s: seq<T>, p: T -> bool, from: nat)
    requires from <= |s|
    ensures var idx := Matching(s, p, from);
      && |idx| == |Filter(s[from..], p)|
      && (forall k :: 0 <= k < |idx| ==> idx[k] < |s| && Filter(s[from..], p)[k] == s[idx[k]])
    decreases |s| - from
  {
    MatchingPositions(s, p, from);
    if from < |s| {
      FilterAtMatching(s, p, from + 1);
      assert s[from..][1..] == s[from + 1..];
    }
  }

  /**
    `Filter` yields a subsequence: the elements at the matching positions,
    and those positions are strictly increasing and are exactly the ones
    whose element satisfies `p`.
   */
  lemma FilterIsSubsequence<T(!new)>(s: seq<T>, p: T -> bool, from: nat)
    requires from <= |s|
    ensures var idx := Matching(s, p, from);
      && |idx| == |Filter(s[from..], p)|
      && (forall k :: 0 <= k < |idx| ==> from <= idx[k] < |s| && Filter(s[from..], p)[k] == s[idx[k]])
      && (forall k, l :: 0 <= k < l < |idx| ==> idx[k] < idx[l])
      && (forall i :: from <= i < |s| ==> (i in idx <==> p(s[i])))
  {
    MatchingPositions(s, p, from);
    FilterAtMatching(s, p, from);
  }
}
