/** Generic sequence operations: `Array.prototype.filter` and the stable
    `Array.prototype.sort` with a numeric key, each with a specification that
    determines its result completely. */
module Seqs {

  /** `a` can be obtained from `b` by deleting elements (order is kept). */
  ghost predicate Subsequence<T>(a: seq<T>, b: seq<T>)
    decreases |b|
  {
    |a| == 0 || (|b| > 0 && ((a[0] == b[0] && Subsequence(a[1..], b[1..])) || Subsequence(a, b[1..])))
  }

  /** No element occurs twice. */
  predicate NoDuplicates<T(==)>(s: seq<T>) {
    forall i, j :: 0 <= i < j < |s| ==> s[i] != s[j]
  }

  // ---------------------------------------------------------------- filter

  /** `s.filter(p)`: the elements satisfying `p`, each as often as in `s`, in their order in `s`. */
  function Filter<T(!new)>(s: seq<T>, p: T -> bool): (r: seq<T>)
    ensures |r| <= |s|
    ensures forall i :: 0 <= i < |r| ==> p(r[i])
    ensures forall x :: multiset(r)[x] == if p(x) then multiset(s)[x] else 0
    ensures Subsequence(r, s)
    decreases |s|
  {
    if |s| == 0 then
      []
    else
      var rest := Filter(s[1..], p);
      assert s == [s[0]] + s[1..];
      if p(s[0]) then
        assert ([s[0]] + rest)[1..] == rest;
        [s[0]] + rest
      else
        rest
  }

  lemma FilterMembership<T(!new)>(s: seq<T>, p: T -> bool, x: T)
    ensures x in Filter(s, p) <==> x in s && p(x)
  {
    assert x in Filter(s, p) <==> multiset(Filter(s, p))[x] > 0;
    assert x in s <==> multiset(s)[x] > 0;
  }

  lemma {:induction false} FilterConcat<T(!new)>(a: seq<T>, b: seq<T>, p: T -> bool)
    ensures Filter(a + b, p) == Filter(a, p) + Filter(b, p)
    decreases |a|
  {
    if |a| > 0 {
      assert (a + b)[1..] == a[1..] + b;
      FilterConcat(a[1..], b, p);
    } else {
      assert a + b == b;
    }
  }

  /** A filter that keeps every element returns its input. */
  lemma {:induction false} FilterAll<T(!new)>(s: seq<T>, p: T -> bool)
    requires forall i :: 0 <= i < |s| ==> p(s[i])
    ensures Filter(s, p) == s
    decreases |s|
  {
    if |s| > 0 {
      FilterAll(s[1..], p);
      assert s == [s[0]] + s[1..];
    }
  }

  // ---------------------------------------------------------------- sort

  predicate SortedBy<T>(s: seq<T>, key: T -> int) {
    forall i, j :: 0 <= i < j < |s| ==> key(s[i]) <= key(s[j])
  }

  lemma SortedTail<T>(s: seq<T>, key: T -> int)
    requires |s| > 0 && SortedBy(s, key)
    ensures SortedBy(s[1..], key)
  {
    forall i, j | 0 <= i < j < |s| - 1 ensures key(s[1..][i]) <= key(s[1..][j]) {
      assert s[1..][i] == s[i + 1] && s[1..][j] == s[j + 1];
    }
  }

  /** Places `x` before the first element whose key is not smaller than its own. */
  function Insert<T>(x: T, s: seq<T>, key: T -> int): (r: seq<T>)
    requires SortedBy(s, key)
    ensures SortedBy(r, key)
    ensures multiset(r) == multiset(s) + multiset{x}
    decreases |s|
  {
    if |s| == 0 || key(x) <= key(s[0]) then
      LeastKey(x, s, key);
      PrependSorted(x, s, key);
      [x] + s
    else
      SortedTail(s, key);
      var rest := Insert(x, s[1..], key);
      LeastKey(s[0], s[1..], key);
      assert s == [s[0]] + s[1..];
      InsertStep(s[0], x, s[1..], rest, key);
      [s[0]] + rest
  }

  /** A key no greater than the first of a sorted sequence is no greater than any of it. */
  lemma LeastKey<T>(y: T, s: seq<T>, key: T -> int)
    requires SortedBy(s, key)
    requires |s| == 0 || key(y) <= key(s[0])
    ensures forall z :: z in multiset(s) ==> key(y) <= key(z)
  {
    forall z | z in multiset(s) ensures key(y) <= key(z) {
      var j :| 0 <= j < |s| && s[j] == z;
      assert key(s[0]) <= key(s[j]);
    }
  }

  /** One step of insertion: an element no greater than any other goes in front of
      the sorted sequence `rest`, which holds `t` and `x`. */
  lemma InsertStep<T>(y: T, x: T, t: seq<T>, rest: seq<T>, key: T -> int)
    requires SortedBy(rest, key) && multiset(rest) == multiset(t) + multiset{x}
    requires forall z :: z in multiset(t) ==> key(y) <= key(z)
    requires key(y) <= key(x)
    ensures SortedBy([y] + rest, key)
    ensures multiset([y] + rest) == multiset([y] + t) + multiset{x}
  {
    PrependSorted(y, rest, key);
  }

  /** An element no greater than every element of a sorted sequence may go in front. */
  lemma PrependSorted<T>(y: T, rest: seq<T>, key: T -> int)
    requires SortedBy(rest, key)
    requires forall z :: z in multiset(rest) ==> key(y) <= key(z)
    ensures SortedBy([y] + rest, key)
  {
    var r := [y] + rest;
    forall i, j | 0 <= i < j < |r| ensures key(r[i]) <= key(r[j]) {
      assert r[j] == rest[j - 1];
      assert rest[j - 1] in multiset(rest);
      if i > 0 {
        assert r[i] == rest[i - 1];
      }
    }
  }

  /** The stable sort the JavaScript engine performs with comparator `key(a) - key(b)`. */
  function SortBy<T>(s: seq<T>, key: T -> int): (r: seq<T>)
    ensures SortedBy(r, key)
    ensures multiset(r) == multiset(s)
    decreases |s|
  {
    if |s| == 0 then
      []
    else
      assert s == [s[0]] + s[1..];
      Insert(s[0], SortBy(s[1..], key), key)
  }

  /** The filter that keeps the elements whose key is `k`. */
  function KeyIs<T>(key: T -> int, k: int): T -> bool {
    y => key(y) == k
  }

  lemma FilterHead<T(!new)>(s: seq<T>, p: T -> bool)
    requires |s| > 0
    ensures Filter(s, p) == (if p(s[0]) then [s[0]] else []) + Filter(s[1..], p)
  {
  }

  lemma FilterCons<T(!new)>(x: T, s: seq<T>, p: T -> bool)
    ensures Filter([x] + s, p) == (if p(x) then [x] else []) + Filter(s, p)
  {
    assert ([x] + s)[1..] == s;
  }

  lemma {:induction false} InsertKeepsEqualKeys<T(!new)>(x: T, s: seq<T>, key: T -> int, k: int)
    requires SortedBy(s, key)
    ensures Filter(Insert(x, s, key), KeyIs(key, k))
         == (if key(x) == k then [x] else []) + Filter(s, KeyIs(key, k))
    decreases |s|
  {
    var p := KeyIs(key, k);
    if |s| == 0 || key(x) <= key(s[0]) {
      FilterCons(x, s, p);
    } else {
      SortedTail(s, key);
      var rest := Insert(x, s[1..], key);
      assert Insert(x, s, key) == [s[0]] + rest;
      var a: seq<T> := if key(s[0]) == k then [s[0]] else [];
      var b: seq<T> := if key(x) == k then [x] else [];
      var f := Filter(s[1..], p);
      assert p(s[0]) == (key(s[0]) == k) && p(x) == (key(x) == k);
      InsertKeepsEqualKeys(x, s[1..], key, k);
      FilterCons(s[0], rest, p);
      assert Filter(Insert(x, s, key), p) == a + (b + f);
      FilterHead(s, p);
      SingletonsCommute(a, b, f);
    }
  }

  /** Two sequences of which one is empty can be put in front in either order. */
  lemma SingletonsCommute<T>(a: seq<T>, b: seq<T>, f: seq<T>)
    requires a == [] || b == []
    ensures a + (b + f) == b + (a + f)
  {
    if a == [] {
      assert a + (b + f) == b + f && a + f == f;
    } else {
      assert b + f == f && b + (a + f) == a + f;
    }
  }

  /** Stability: the elements sharing any one key keep their relative order. */
  lemma {:induction false} SortByStable<T(!new)>(s: seq<T>, key: T -> int, k: int)
    ensures Filter(SortBy(s, key), KeyIs(key, k)) == Filter(s, KeyIs(key, k))
    decreases |s|
  {
    if |s| > 0 {
      SortByStable(s[1..], key, k);
      InsertKeepsEqualKeys(s[0], SortBy(s[1..], key), key, k);
      FilterCons(s[0], s[1..], KeyIs(key, k));
      assert s == [s[0]] + s[1..];
    }
  }
}
