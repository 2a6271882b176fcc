/** Sequence helpers shared by the encoders: an order-preserving filter-map
    (how every "for each live item, skip or emit" loop of the encoder shapes its
    output) and the linear "already seen" list the realization phase keeps. */
module Sequences {
  import opened Optional

  /** No element occurs twice in `s`. */
  predicate NoDuplicates<T(==)>(s: seq<T>) {
    forall i, j :: 0 <= i < j < |s| ==> s[i] != s[j]
  }

  /** Indices are strictly increasing, so they pick a subsequence in order. */
  predicate StrictlyIncreasing(s: seq<nat>) {
    forall i, j :: 0 <= i < j < |s| ==> s[i] < s[j]
  }

  /** The k-th of strictly increasing naturals is at least k. */
  lemma {:induction false} IncreasingAtLeastPosition(s: seq<nat>, k: nat)
    requires StrictlyIncreasing(s)
    requires k < |s|
    ensures k <= s[k]
    decreases k
  {
    if k > 0 {
      IncreasingAtLeastPosition(s, k - 1);
    }
  }

  /** Strictly increasing naturals below `n` that include every natural below
      `n` are exactly 0, 1, ..., n - 1. */
  lemma CoveredIncreasingIsIdentity(s: seq<nat>, n: nat)
    requires StrictlyIncreasing(s)
    requires forall k :: 0 <= k < |s| ==> s[k] < n
    requires forall j :: 0 <= j < n ==> j in s
    ensures |s| == n
    ensures forall k :: 0 <= k < |s| ==> s[k] == k
  {
    forall k | 0 <= k < |s| ensures s[k] == k {
      IdentityUpTo(s, n, k);
    }
    if n > 0 {
      assert n - 1 in s;
      var i :| 0 <= i < |s| && s[i] == n - 1;
      assert i == n - 1;
    }
    if |s| > 0 {
      assert s[|s| - 1] == |s| - 1;
    }
  }

  lemma {:induction false} IdentityUpTo(s: seq<nat>, n: nat, k: nat)
    requires StrictlyIncreasing(s)
    requires forall i :: 0 <= i < |s| ==> s[i] < n
    requires forall j :: 0 <= j < n ==> j in s
    requires k < |s|
    ensures s[k] == k
    decreases k
  {
    IncreasingAtLeastPosition(s, k);
    if s[k] != k {
      assert k in s;
      var i :| 0 <= i < |s| && s[i] == k;
      if i < k {
        IdentityUpTo(s, n, i);
      }
    }
  }

  // ---------------------------------------------------------------------------
  // First match

  /** The first element of `xs` that satisfies `p` (`FindByPredicate`): there is
      one exactly when some element satisfies `p`, and it is an element of `xs`
      that does. */
  function FindFirst<T>(xs: seq<T>, p: T -> bool): (r: Option<T>)
    ensures r.Some? <==> exists k :: 0 <= k < |xs| && p(xs[k])
    ensures r.Some? ==> p(r.value) && r.value in xs
    decreases |xs|
  {
    if |xs| == 0 then None
    else if p(xs[0]) then Some(xs[0])
    else
      var rest := FindFirst(xs[1..], p);
      assert forall k :: 1 <= k < |xs| ==> xs[k] == xs[1..][k - 1];
      rest
  }

  /** The element found sits at a position before which nothing satisfies `p`. */
  lemma {:induction false} FindFirstIsFirst<T>(xs: seq<T>, p: T -> bool)
    requires FindFirst(xs, p).Some?
    ensures exists k :: 0 <= k < |xs| && xs[k] == FindFirst(xs, p).value && forall j :: 0 <= j < k ==> !p(xs[j])
    decreases |xs|
  {
    if !p(xs[0]) {
      FindFirstIsFirst(xs[1..], p);
      var k :| 0 <= k < |xs[1..]| && xs[1..][k] == FindFirst(xs[1..], p).value
               && forall j :: 0 <= j < k ==> !p(xs[1..][j]);
      assert xs[k + 1] == FindFirst(xs, p).value;
      assert forall j :: 1 <= j < k + 1 ==> xs[j] == xs[1..][j - 1];
    } else {
      assert xs[0] == FindFirst(xs, p).value;
    }
  }

  // ---------------------------------------------------------------------------
  // Filter-map

  /** The `Some` results of `f` over `xs`, in the order of `xs`. */
  function FilterMap<A, B>(xs: seq<A>, f: A -> Option<B>): seq<B>
    decreases |xs|
  {
    if |xs| == 0 then []
    else
      FilterMap(xs[..|xs| - 1], f)
      + (match f(xs[|xs| - 1]) case Some(y) => [y] case None => [])
  }

  /** The positions of `xs` on which `f` gives `Some`, in increasing order. */
  function SelectedIndices<A, B>(xs: seq<A>, f: A -> Option<B>): seq<nat>
    decreases |xs|
  {
    if |xs| == 0 then []
    else
      SelectedIndices(xs[..|xs| - 1], f)
      + (if f(xs[|xs| - 1]).Some? then [|xs| - 1] else [])
  }

  /** FilterMap keeps exactly the items `f` accepts, in their original order:
      the k-th output is `f` applied to the item at the k-th selected position,
      the selected positions increase, and a position is selected iff `f`
      accepts the item there. */
  lemma FilterMapSelects<A, B>(xs: seq<A>, f: A -> Option<B>)
    ensures |FilterMap(xs, f)| == |SelectedIndices(xs, f)|
    ensures forall k :: 0 <= k < |SelectedIndices(xs, f)| ==>
              SelectedIndices(xs, f)[k] < |xs|
              && f(xs[SelectedIndices(xs, f)[k]]) == Some(FilterMap(xs, f)[k])
    ensures StrictlyIncreasing(SelectedIndices(xs, f))
    ensures forall j :: 0 <= j < |xs| ==>
              (j in SelectedIndices(xs, f) <==> f(xs[j]).Some?)
  {
    SelectedIndicesShape(xs, f);
    FilterMapAtSelected(xs, f);
  }

  /** The selected positions are in range, increase, and are exactly the
      positions `f` accepts. */
  lemma {:induction false} SelectedIndicesShape<A, B>(xs: seq<A>, f: A -> Option<B>)
    ensures forall k :: 0 <= k < |SelectedIndices(xs, f)| ==> SelectedIndices(xs, f)[k] < |xs|
    ensures StrictlyIncreasing(SelectedIndices(xs, f))
    ensures forall j :: 0 <= j < |xs| ==>
              (j in SelectedIndices(xs, f) <==> f(xs[j]).Some?)
    decreases |xs|
  {
    if |xs| > 0 {
      var n := |xs| - 1;
      var p := xs[..n];
      SelectedIndicesShape(p, f);
      assert forall j :: 0 <= j < n ==> p[j] == xs[j];
    }
  }

  /** FilterMap has one output per selected position. */
  lemma {:induction false} FilterMapCountsSelected<A, B>(xs: seq<A>, f: A -> Option<B>)
    ensures |FilterMap(xs, f)| == |SelectedIndices(xs, f)|
    decreases |xs|
  {
    if |xs| > 0 {
      FilterMapCountsSelected(xs[..|xs| - 1], f);
    }
  }

  /** The k-th output of FilterMap is what `f` gives at the k-th selected
      position. */
  lemma {:induction false} FilterMapAtSelected<A, B>(xs: seq<A>, f: A -> Option<B>)
    ensures |FilterMap(xs, f)| == |SelectedIndices(xs, f)|
    ensures forall k :: 0 <= k < |SelectedIndices(xs, f)| ==>
              SelectedIndices(xs, f)[k] < |xs|
              && f(xs[SelectedIndices(xs, f)[k]]) == Some(FilterMap(xs, f)[k])
    decreases |xs|
  {
    FilterMapCountsSelected(xs, f);
    if |xs| > 0 {
      var n := |xs| - 1;
      var p := xs[..n];
      FilterMapAtSelected(p, f);
      var sel := SelectedIndices(p, f);
      var out := FilterMap(p, f);
      var all := SelectedIndices(xs, f);
      var outAll := FilterMap(xs, f);
      assert all[..|sel|] == sel && outAll[..|out|] == out;
      forall k | 0 <= k < |all| ensures all[k] < |xs| && f(xs[all[k]]) == Some(outAll[k]) {
        if k < |sel| {
          assert all[k] == sel[k] && outAll[k] == out[k];
          assert p[sel[k]] == xs[sel[k]];
        } else {
          assert f(xs[n]).Some? && all[k] == n && outAll[k] == f(xs[n]).value;
        }
      }
    }
  }

  /** FilterMap never produces more items than it is given. */
  lemma FilterMapLength<A, B>(xs: seq<A>, f: A -> Option<B>)
    ensures |FilterMap(xs, f)| <= |xs|
  {
    FilterMapSelects(xs, f);
    SelectedIndicesBounded(xs, f);
  }

  lemma {:induction false} SelectedIndicesBounded<A, B>(xs: seq<A>, f: A -> Option<B>)
    ensures |SelectedIndices(xs, f)| <= |xs|
    decreases |xs|
  {
    if |xs| > 0 {
      SelectedIndicesBounded(xs[..|xs| - 1], f);
    }
  }

  /** Every output of FilterMap is `f` of some input. */
  lemma FilterMapElements<A, B>(xs: seq<A>, f: A -> Option<B>, y: B)
    requires y in FilterMap(xs, f)
    ensures exists j :: 0 <= j < |xs| && f(xs[j]) == Some(y)
  {
    FilterMapAtSelected(xs, f);
    var k :| 0 <= k < |FilterMap(xs, f)| && FilterMap(xs, f)[k] == y;
    var j := SelectedIndices(xs, f)[k];
    assert f(xs[j]) == Some(y);
  }

  // ---------------------------------------------------------------------------
  // Linear "already seen" list

  /** `seen`, extended by every item of `items` that is not yet in it, in order
      of first appearance: the list a "find; if absent, act and append" walk
      over `items` leaves behind. */
  function AppendUnseen<T(==)>(seen: seq<T>, items: seq<T>): seq<T>
    decreases |items|
  {
    if |items| == 0 then seen
    else
      var before := AppendUnseen(seen, items[..|items| - 1]);
      if items[|items| - 1] in before then before else before + [items[|items| - 1]]
  }

  /** The walk keeps `seen` as a prefix, never records anything twice, and ends
      up holding exactly the items of `seen` and of `items`. */
  lemma {:induction false} AppendUnseenSpec<T>(seen: seq<T>, items: seq<T>)
    requires NoDuplicates(seen)
    ensures |seen| <= |AppendUnseen(seen, items)|
    ensures AppendUnseen(seen, items)[..|seen|] == seen
    ensures NoDuplicates(AppendUnseen(seen, items))
    ensures forall x :: x in AppendUnseen(seen, items) <==> x in seen || x in items
    decreases |items|
  {
    if |items| > 0 {
      var p := items[..|items| - 1];
      AppendUnseenSpec(seen, p);
      assert items == p + [items[|items| - 1]];
    }
  }

  /** Walking two lists one after the other with the same seen list is the same
      as walking their concatenation. */
  lemma {:induction false} AppendUnseenConcat<T>(seen: seq<T>, a: seq<T>, b: seq<T>)
    ensures AppendUnseen(AppendUnseen(seen, a), b) == AppendUnseen(seen, a + b)
    decreases |b|
  {
    if |b| == 0 {
      assert a + b == a;
    } else {
      var n := |b| - 1;
      AppendUnseenConcat(seen, a, b[..n]);
      assert (a + b)[..|a + b| - 1] == a + b[..n];
      assert (a + b)[|a + b| - 1] == b[n];
    }
  }

  /** In a list without duplicates an element that occurs does so exactly once. */
  lemma OccursOnce<T>(s: seq<T>, x: T)
    requires NoDuplicates(s)
    requires x in s
    ensures multiset(s)[x] == 1
    decreases |s|
  {
    var i :| 0 <= i < |s| && s[i] == x;
    assert s == s[..i] + [x] + s[i + 1..];
    assert x !in s[..i] by {
      forall k | 0 <= k < i ensures s[..i][k] != x {
        assert s[k] != s[i];
      }
    }
    assert x !in s[i + 1..] by {
      forall k | i + 1 <= k < |s| ensures s[k] != x {
        assert s[i] != s[k];
      }
    }
    assert multiset(s) == multiset(s[..i]) + multiset{x} + multiset(s[i + 1..]);
  }
}
