/** The optional value the model uses where JavaScript returns `undefined`. */
module Wrappers {
  datatype Option<+T> = None | Some(value: T)
}

/**
 * The two array scans the graph code is built from: `Array.prototype.find`
 * (first element that satisfies a predicate) and `Array.prototype.filter`
 * (the order-preserving subsequence of the elements that satisfy it).
 */
module Seqs {
  import opened Wrappers

  /** The index of the first element of `s` at or after `from` that satisfies `p`. */
  function FindFrom<T>(s: seq<T>, p: T -> bool, from: nat): (r: Option<nat>)
    requires from <= |s|
    ensures r.Some? ==> from <= r.value < |s| && p(s[r.value])
    ensures r.Some? ==> forall k :: from <= k < r.value ==> !p(s[k])
    ensures r.None? ==> forall k :: from <= k < |s| ==> !p(s[k])
    decreases |s| - from
  {
    if from == |s| then None
    else if p(s[from]) then Some(from)
    else FindFrom(s, p, from + 1)
  }

  /** `s.find(p)` as an index: the first match, or None when nothing matches. */
  function FindFirst<T>(s: seq<T>, p: T -> bool): (r: Option<nat>)
    ensures r.Some? ==> r.value < |s| && p(s[r.value]) && forall k :: 0 <= k < r.value ==> !p(s[k])
    ensures r.None? <==> forall k :: 0 <= k < |s| ==> !p(s[k])
  {
    FindFrom(s, p, 0)
  }

  ghost predicate StrictlyIncreasing(idx: seq<nat>) {
    forall a, b :: 0 <= a < b < |idx| ==> idx[a] < idx[b]
  }

  /** The positions, in increasing order, of the first `n` elements of `s` that satisfy `p`. */
  function FilterIndicesUpTo<T>(s: seq<T>, p: T -> bool, n: nat): (r: seq<nat>)
    requires n <= |s|
    ensures StrictlyIncreasing(r)
    ensures forall k :: 0 <= k < |r| ==> r[k] < n && p(s[r[k]])
    ensures forall i :: 0 <= i < n && p(s[i]) ==> i in r
  {
    if n == 0 then []
    else
      var prefix := FilterIndicesUpTo(s, p, n - 1);
      if p(s[n - 1]) then prefix + [n - 1] else prefix
  }

  /** The positions that `s.filter(p)` keeps, in the order it keeps them. */
  function FilterIndices<T>(s: seq<T>, p: T -> bool): (r: seq<nat>)
    ensures StrictlyIncreasing(r)
    ensures forall k :: 0 <= k < |r| ==> r[k] < |s| && p(s[r[k]])
    ensures forall i :: 0 <= i < |s| ==> (p(s[i]) <==> i in r)
  {
    FilterIndicesUpTo(s, p, |s|)
  }

  /** `s.filter(p)`. */
  function Filter<T>(s: seq<T>, p: T -> bool): (r: seq<T>)
    ensures |r| == |FilterIndices(s, p)|
    ensures forall k :: 0 <= k < |r| ==> r[k] == s[FilterIndices(s, p)[k]]
  {
    var idx := FilterIndices(s, p);
    seq(|idx|, k requires 0 <= k < |idx| => s[idx[k]])
  }

  /** The filter keeps exactly the elements that satisfy the predicate. */
  lemma FilterMembers<T(!new)>(s: seq<T>, p: T -> bool)
    ensures forall x :: x in Filter(s, p) <==> x in s && p(x)
  {
    var idx := FilterIndices(s, p);
    var r := Filter(s, p);
    forall x | x in s && p(x) ensures x in r {
      var i :| 0 <= i < |s| && s[i] == x;
      var k :| 0 <= k < |idx| && idx[k] == i;
      assert r[k] == x;
    }
  }

  /** Appending two pieces one after the other appends their concatenation. */
  lemma AppendAssoc<T>(a: seq<T>, b: seq<T>, c: seq<T>)
    ensures a + b + c == a + (b + c)
  {
    assert forall i :: 0 <= i < |a| + |b| + |c| ==> (a + b + c)[i] == (a + (b + c))[i];
  }
}
