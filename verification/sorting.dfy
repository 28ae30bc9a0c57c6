/** `Array.prototype.sort` with a consistent comparator. The sort is stable (ECMAScript 2019
    and later), and every stable sort by the same total preorder yields the same sequence, so
    the handlers' sorts are modelled by one stable insertion sort. `le(a, b)` means "`a` may
    stay before `b`", i.e. the comparator's value for `(a, b)` is not positive. */
module Sorting {

  ghost predicate Total<T(!new)>(le: (T, T) -> bool) {
    forall x, y :: le(x, y) || le(y, x)
  }

  ghost predicate Transitive<T(!new)>(le: (T, T) -> bool) {
    forall x, y, z :: le(x, y) && le(y, z) ==> le(x, z)
  }

  /** What a consistent comparator induces: a total preorder. */
  ghost predicate TotalPreorder<T(!new)>(le: (T, T) -> bool) {
    Total(le) && Transitive(le)
  }

  predicate SortedBy<T>(le: (T, T) -> bool, s: seq<T>) {
    forall i, j :: 0 <= i < j < |s| ==> le(s[i], s[j])
  }

  /** No two elements share a key. */
  predicate KeysDistinct<T, K(==)>(s: seq<T>, key: T -> K) {
    forall i, j :: 0 <= i < j < |s| ==> key(s[i]) != key(s[j])
  }

  /** Inserts `x` after every element of `s` that may precede it, so that among equivalent
      elements the one inserted last ends up last. */
  function Insert<T>(le: (T, T) -> bool, x: T, s: seq<T>): (r: seq<T>)
    ensures multiset(r) == multiset(s) + multiset{x}
    ensures |r| == |s| + 1
  {
    if |s| == 0 then [x]
    else if !le(s[0], x) then [x] + s
    else
      assert s == [s[0]] + s[1..];
      [s[0]] + Insert(le, x, s[1..])
  }

  /** Stable insertion sort: the prefix is sorted first, then the last element is inserted. */
  function SortBy<T>(le: (T, T) -> bool, s: seq<T>): (r: seq<T>)
    ensures multiset(r) == multiset(s)
    ensures |r| == |s|
  {
    if |s| == 0 then []
    else
      assert s == s[..|s| - 1] + [s[|s| - 1]];
      Insert(le, s[|s| - 1], SortBy(le, s[..|s| - 1]))
  }

  lemma {:induction false} InsertSorted<T(!new)>(le: (T, T) -> bool, x: T, s: seq<T>)
    requires TotalPreorder(le)
    requires SortedBy(le, s)
    ensures SortedBy(le, Insert(le, x, s))
  {
    if |s| > 0 && le(s[0], x) {
      var rest := Insert(le, x, s[1..]);
      InsertSorted(le, x, s[1..]);
      forall k | 0 <= k < |rest|
        ensures le(s[0], rest[k])
      {
        assert rest[k] in multiset(rest);
        if rest[k] != x {
          assert rest[k] in multiset(s[1..]);
          var m :| 0 <= m < |s[1..]| && s[1..][m] == rest[k];
          assert s[m + 1] == rest[k];
        }
      }
    }
  }

  /** The sort yields a sequence ordered by `le`. */
  lemma {:induction false} SortBySorted<T(!new)>(le: (T, T) -> bool, s: seq<T>)
    requires TotalPreorder(le)
    ensures SortedBy(le, SortBy(le, s))
  {
    if |s| > 0 {
      SortBySorted(le, s[..|s| - 1]);
      InsertSorted(le, s[|s| - 1], SortBy(le, s[..|s| - 1]));
    }
  }

  /** Every element of a permutation of `s` is an element of `s`, and conversely. */
  lemma SameElements<T>(a: seq<T>, b: seq<T>)
    requires multiset(a) == multiset(b)
    ensures forall x :: x in a <==> x in b
  {
    forall x
      ensures x in a <==> x in b
    {
      assert x in a <==> x in multiset(a);
      assert x in b <==> x in multiset(b);
    }
  }

  lemma {:induction false} InsertKeepsKeysDistinct<T, K>(le: (T, T) -> bool, key: T -> K, x: T, s: seq<T>)
    requires KeysDistinct(s, key)
    requires forall i :: 0 <= i < |s| ==> key(s[i]) != key(x)
    ensures KeysDistinct(Insert(le, x, s), key)
  {
    if |s| > 0 && le(s[0], x) {
      var rest := Insert(le, x, s[1..]);
      InsertKeepsKeysDistinct(le, key, x, s[1..]);
      forall k | 0 <= k < |rest|
        ensures key(s[0]) != key(rest[k])
      {
        assert rest[k] in multiset(rest);
        if rest[k] != x {
          assert rest[k] in multiset(s[1..]);
          var m :| 0 <= m < |s[1..]| && s[1..][m] == rest[k];
          assert s[m + 1] == rest[k];
        }
      }
    }
  }

  /** Sorting never makes two elements share a key. */
  lemma {:induction false} SortByKeepsKeysDistinct<T, K>(le: (T, T) -> bool, key: T -> K, s: seq<T>)
    requires KeysDistinct(s, key)
    ensures KeysDistinct(SortBy(le, s), key)
  {
    if |s| > 0 {
      var p := s[..|s| - 1];
      var sp := SortBy(le, p);
      SortByKeepsKeysDistinct(le, key, p);
      forall i | 0 <= i < |sp|
        ensures key(sp[i]) != key(s[|s| - 1])
      {
        assert sp[i] in multiset(sp);
        var m :| 0 <= m < |p| && p[m] == sp[i];
        assert s[m] == sp[i];
      }
      InsertKeepsKeysDistinct(le, key, s[|s| - 1], sp);
    }
  }

  /** The first `n` elements of a sorted sequence are sorted, come from it, and precede
      every element left out. */
  lemma SortedPrefix<T>(le: (T, T) -> bool, sorted: seq<T>, n: nat)
    requires SortedBy(le, sorted)
    requires n <= |sorted|
    ensures SortedBy(le, sorted[..n])
    ensures multiset(sorted[..n]) <= multiset(sorted)
    ensures forall x :: x in sorted && x !in sorted[..n] ==> forall i :: 0 <= i < n ==> le(sorted[i], x)
  {
    var top := sorted[..n];
    assert sorted == top + sorted[n..];
    assert multiset(sorted) == multiset(top) + multiset(sorted[n..]);
    forall x | x in sorted && x !in top
      ensures forall i :: 0 <= i < n ==> le(sorted[i], x)
    {
      var j :| 0 <= j < |sorted| && sorted[j] == x;
    }
  }

  /** The first `n` elements of a sorted permutation of `s`: themselves sorted, drawn from
      `s`, and never preceded by an element of `s` that was left out. */
  lemma TopOfSorted<T(!new)>(le: (T, T) -> bool, s: seq<T>, n: nat)
    requires TotalPreorder(le)
    requires n <= |s|
    ensures var top := SortBy(le, s)[..n];
      && SortedBy(le, top)
      && multiset(top) <= multiset(s)
      && forall x :: x in s && x !in top ==> forall i :: 0 <= i < n ==> le(top[i], x)
  {
    var sorted := SortBy(le, s);
    SortBySorted(le, s);
    SortedPrefix(le, sorted, n);
    SameElements(sorted, s);
  }
}
