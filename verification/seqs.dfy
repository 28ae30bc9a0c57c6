/** The array operations the request handlers use (`filter`, `find`, `reduce`, `slice`),
    as functions over sequences. Each is defined element by element from the front or
    from the back, the way the JavaScript built-in walks the array. */
module Seqs {
  import opened Fields

  /** `Array.prototype.filter`: the elements satisfying `p`, in their original order. */
  function Filter<T(!new)>(s: seq<T>, p: T -> bool): (r: seq<T>)
    ensures |r| <= |s|
    ensures forall i :: 0 <= i < |r| ==> p(r[i]) && r[i] in s
    ensures forall i :: 0 <= i < |s| && p(s[i]) ==> s[i] in r
    ensures multiset(r) <= multiset(s)
  {
    if |s| == 0 then []
    else
      assert s == s[..|s| - 1] + [s[|s| - 1]];
      var f := Filter(s[..|s| - 1], p);
      if p(s[|s| - 1]) then f + [s[|s| - 1]] else f
  }

  /** `filter` keeps every occurrence of a passing element and drops every occurrence of a
      failing one: the result counts each value exactly as often as the input when `p`
      holds of it, and not at all otherwise. */
  lemma {:induction false} FilterCounts<T(!new)>(s: seq<T>, p: T -> bool)
    ensures forall x :: multiset(Filter(s, p))[x] == if p(x) then multiset(s)[x] else 0
  {
    if |s| > 0 {
      var init, last := s[..|s| - 1], s[|s| - 1];
      FilterCounts(init, p);
      assert s == init + [last];
      assert multiset(s) == multiset(init) + multiset{last};
      if p(last) {
        assert Filter(s, p) == Filter(init, p) + [last];
        assert multiset(Filter(s, p)) == multiset(Filter(init, p)) + multiset{last};
      } else {
        assert Filter(s, p) == Filter(init, p);
      }
    }
  }

  /** The positions of the elements satisfying `p`, in increasing order. */
  function MatchIndices<T>(s: seq<T>, p: T -> bool): (r: seq<nat>)
    ensures forall k :: 0 <= k < |r| ==> r[k] < |s| && p(s[r[k]])
    ensures forall k, l :: 0 <= k < l < |r| ==> r[k] < r[l]
    ensures forall i :: 0 <= i < |s| && p(s[i]) ==> i in r
  {
    if |s| == 0 then []
    else
      var m := MatchIndices(s[..|s| - 1], p);
      if p(s[|s| - 1]) then m + [|s| - 1] else m
  }

  /** `filter` keeps the order of the array: the result is the subsequence of `s` at the
      positions where `p` holds, so it is determined by those positions alone. */
  lemma {:induction false} FilterIsSubsequence<T(!new)>(s: seq<T>, p: T -> bool)
    ensures |Filter(s, p)| == |MatchIndices(s, p)|
    ensures forall k :: 0 <= k < |Filter(s, p)| ==> Filter(s, p)[k] == s[MatchIndices(s, p)[k]]
  {
    if |s| > 0 {
      var init, last := s[..|s| - 1], s[|s| - 1];
      FilterIsSubsequence(init, p);
      SubsequenceSnoc(s, Filter(init, p), MatchIndices(init, p), last);
    }
  }

  /** The inductive step of `FilterIsSubsequence`: positions into the prefix read the same
      elements in the whole sequence. */
  lemma SubsequenceSnoc<T>(s: seq<T>, f: seq<T>, m: seq<nat>, last: T)
    requires |s| > 0 && last == s[|s| - 1]
    requires |f| == |m|
    requires forall k :: 0 <= k < |m| ==> m[k] < |s| - 1 && f[k] == s[..|s| - 1][m[k]]
    ensures forall k :: 0 <= k < |f| ==> f[k] == s[m[k]]
    ensures forall k :: 0 <= k < |f| + 1 ==> (f + [last])[k] == s[(m + [|s| - 1])[k]]
  {
  }

  function FirstIndex<T>(s: seq<T>, p: T -> bool): (r: Option<nat>)
    ensures r.None? <==> forall j :: 0 <= j < |s| ==> !p(s[j])
    ensures r.Some? ==> r.value < |s| && p(s[r.value]) && forall j :: 0 <= j < r.value ==> !p(s[j])
  {
    if |s| == 0 then None
    else if p(s[0]) then Some(0)
    else
      var r := FirstIndex(s[1..], p);
      if r.Some? then Some(r.value + 1) else None
  }

  /** `Array.prototype.find`: the first element satisfying `p`, if any. */
  function First<T>(s: seq<T>, p: T -> bool): (r: Option<T>)
    ensures r.None? <==> forall j :: 0 <= j < |s| ==> !p(s[j])
    ensures r.Some? ==> FirstIndex(s, p).Some? && r.value == s[FirstIndex(s, p).value]
  {
    var i := FirstIndex(s, p);
    if i.Some? then Some(s[i.value]) else None
  }

  /** The last position satisfying `p`. */
  function LastIndex<T>(s: seq<T>, p: T -> bool): (r: Option<nat>)
    ensures r.None? <==> forall j :: 0 <= j < |s| ==> !p(s[j])
    ensures r.Some? ==> r.value < |s| && p(s[r.value]) && forall j :: r.value < j < |s| ==> !p(s[j])
  {
    if |s| == 0 then None
    else if p(s[|s| - 1]) then Some(|s| - 1)
    else LastIndex(s[..|s| - 1], p)
  }

  /** The last element satisfying `p`, if any: what a `Map` filled by `set` in array order
      holds for a key once the loop is over. */
  function Last<T>(s: seq<T>, p: T -> bool): (r: Option<T>)
    ensures r.None? <==> forall j :: 0 <= j < |s| ==> !p(s[j])
    ensures r.Some? ==> LastIndex(s, p).Some? && r.value == s[LastIndex(s, p).value]
  {
    var i := LastIndex(s, p);
    if i.Some? then Some(s[i.value]) else None
  }

  /** `Array.prototype.reduce((sum, x) => sum + f(x), 0)`, folded from the left. */
  function Sum<T>(s: seq<T>, f: T -> real): real {
    if |s| == 0 then 0.0 else Sum(s[..|s| - 1], f) + f(s[|s| - 1])
  }

  /** The same fold over an integer field. */
  function SumInt<T>(s: seq<T>, f: T -> int): int {
    if |s| == 0 then 0 else SumInt(s[..|s| - 1], f) + f(s[|s| - 1])
  }

  /** `s.slice(0, n)` for a non-negative `n`. */
  function Take<T>(s: seq<T>, n: nat): (r: seq<T>)
    ensures |r| == if n < |s| then n else |s|
    ensures r <= s
  {
    if n < |s| then s[..n] else s
  }

  /** When every term lies in `[lo, hi]`, the sum lies in `[lo * |s|, hi * |s|]`. */
  lemma {:induction false} SumBounds<T>(s: seq<T>, f: T -> real, lo: real, hi: real)
    requires forall x :: x in s ==> lo <= f(x) <= hi
    ensures lo * |s| as real <= Sum(s, f) <= hi * |s| as real
  {
    if |s| > 0 {
      var p := s[..|s| - 1];
      var last := s[|s| - 1];
      forall x | x in p
        ensures lo <= f(x) <= hi
      {
        assert x in s;
      }
      SumBounds(p, f, lo, hi);
      assert last in s;
      StepBounds(Sum(p, f), f(last), lo, hi, |p| as real);
    }
  }

  /** One more term within `[lo, hi]` widens the bounds by one step. */
  lemma StepBounds(a: real, b: real, lo: real, hi: real, n: real)
    requires lo * n <= a <= hi * n
    requires lo <= b <= hi
    ensures lo * (n + 1.0) <= a + b <= hi * (n + 1.0)
  {
    assert lo * (n + 1.0) == lo * n + lo;
    assert hi * (n + 1.0) == hi * n + hi;
  }

  /** A sum of two pointwise related fields: `Sum(a*f + b*g) == a*Sum(f) + b*Sum(g)`. */
  lemma {:induction false} SumLinear<T>(s: seq<T>, f: T -> real, g: T -> real, h: T -> real, a: real, b: real)
    requires forall x :: x in s ==> h(x) == a * f(x) + b * g(x)
    ensures Sum(s, h) == a * Sum(s, f) + b * Sum(s, g)
  {
    if |s| > 0 {
      var p := s[..|s| - 1];
      assert forall x :: x in p ==> x in s;
      SumLinear(p, f, g, h, a, b);
      assert s[|s| - 1] in s;
    }
  }

  /** Filtering with a predicate that holds everywhere returns the sequence unchanged. */
  lemma {:induction false} FilterAll<T(!new)>(s: seq<T>, p: T -> bool)
    requires forall i :: 0 <= i < |s| ==> p(s[i])
    ensures Filter(s, p) == s
  {
    if |s| > 0 {
      var q := s[..|s| - 1];
      FilterAll(q, p);
      assert s == q + [s[|s| - 1]];
    }
  }

  /** Filtering with a predicate that holds nowhere returns nothing. */
  lemma {:induction false} FilterNone<T(!new)>(s: seq<T>, p: T -> bool)
    requires forall i :: 0 <= i < |s| ==> !p(s[i])
    ensures Filter(s, p) == []
  {
    if |s| > 0 {
      FilterNone(s[..|s| - 1], p);
    }
  }

  /** Two tests that agree on every element find the same last element. */
  lemma {:induction false} LastAgrees<T>(s: seq<T>, p: T -> bool, q: T -> bool)
    requires forall i :: 0 <= i < |s| ==> p(s[i]) == q(s[i])
    ensures Last(s, p) == Last(s, q)
  {
    if |s| > 0 {
      LastAgrees(s[..|s| - 1], p, q);
    }
  }

  /** A total between `lo * n` and `hi * n` gives a mean between `lo` and `hi`. */
  lemma DivBetween(s: real, n: real, lo: real, hi: real)
    requires n > 0.0
    requires lo * n <= s <= hi * n
    ensures lo <= s / n <= hi
  {
    assert s / n * n == s;
  }

  /** An empty filter means no element passes the test. */
  lemma FilterEmpty<T(!new)>(s: seq<T>, p: T -> bool)
    requires |Filter(s, p)| == 0
    ensures forall i :: 0 <= i < |s| ==> !p(s[i])
  {
  }

  /** The index `FirstIndex` finds is characterised by its two properties. */
  lemma {:induction false} FirstIndexIs<T>(s: seq<T>, p: T -> bool, i: nat)
    requires i < |s| && p(s[i])
    requires forall j :: 0 <= j < i ==> !p(s[j])
    ensures FirstIndex(s, p) == Some(i)
  {
    if i > 0 {
      assert !p(s[0]);
      FirstIndexIs(s[1..], p, i - 1);
    }
  }

  /** The first element of a filter is the element `find` returns. */
  lemma {:induction false} FirstOfFilter<T(!new)>(s: seq<T>, p: T -> bool)
    requires |Filter(s, p)| > 0
    ensures FirstIndex(s, p).Some? && Filter(s, p)[0] == s[FirstIndex(s, p).value]
  {
    var s0 := s[..|s| - 1];
    var f0 := Filter(s0, p);
    var f := Filter(s, p);
    assert f == if p(s[|s| - 1]) then f0 + [s[|s| - 1]] else f0;
    if |f0| > 0 {
      FirstOfFilter(s0, p);
      var i := FirstIndex(s0, p).value;
      assert f[0] == f0[0] == s0[i] == s[i];
      assert forall j :: 0 <= j < i ==> s[j] == s0[j];
      FirstIndexIs(s, p, i);
    } else {
      FilterEmpty(s0, p);
      assert forall j :: 0 <= j < |s| - 1 ==> s[j] == s0[j];
      FirstIndexIs(s, p, |s| - 1);
    }
  }
}
