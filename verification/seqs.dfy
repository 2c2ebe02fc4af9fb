/** Sequence helpers: `Array.prototype.filter`, order-preserving subsequences and sums. */
module Seqs {

  /** `a` can be obtained from `b` by deleting elements, without reordering the rest. */
  predicate SubsequenceOf<T(==)>(a: seq<T>, b: seq<T>)
    decreases |b|
  {
    if |a| == 0 then true
    else if |b| == 0 then false
    else (a[0] == b[0] && SubsequenceOf(a[1..], b[1..])) || SubsequenceOf(a, b[1..])
  }

  /**
   * `s.filter(p)`: keeps exactly the elements satisfying `p`, each as often as it
   * occurs in `s`, in their original order.
   */
  function Filter<T(==,!new)>(s: seq<T>, p: T -> bool): (r: seq<T>)
    ensures |r| <= |s|
    ensures forall x :: x in r <==> x in s && p(x)
    ensures forall x :: multiset(r)[x] == if p(x) then multiset(s)[x] else 0
    ensures SubsequenceOf(r, s)
  {
    if |s| == 0 then []
    else
      var rest := Filter(s[1..], p);
      assert s == [s[0]] + s[1..];
      assert multiset(s) == multiset{s[0]} + multiset(s[1..]);
      if p(s[0]) then
        var r := [s[0]] + rest;
        assert r[1..] == rest;
        assert multiset(r) == multiset{s[0]} + multiset(rest);
        r
      else rest
  }

  /** Number of elements of `s` satisfying `p`. */
  function CountWhere<T(==,!new)>(s: seq<T>, p: T -> bool): (n: nat)
    ensures n <= |s|
  {
    |Filter(s, p)|
  }

  /** Sum of a sequence of reals (`reduce((a, x) => a + x, 0)`). */
  function Sum(s: seq<real>): real
  {
    if |s| == 0 then 0.0 else Sum(s[..|s| - 1]) + s[|s| - 1]
  }

  /** Sum of `f` over the elements of `s`. */
  function SumOf<T>(s: seq<T>, f: T -> real): real
  {
    if |s| == 0 then 0.0 else SumOf(s[..|s| - 1], f) + f(s[|s| - 1])
  }

  predicate AllNonNegative(s: seq<real>)
  {
    forall i :: 0 <= i < |s| ==> s[i] >= 0.0
  }

  /** Prefix sums of non-negative numbers never decrease. */
  lemma {:induction false} SumPrefixMonotone(s: seq<real>, i: nat, j: nat)
    requires AllNonNegative(s)
    requires i <= j <= |s|
    ensures Sum(s[..i]) <= Sum(s[..j])
    decreases j - i
  {
    if i < j {
      SumPrefixMonotone(s, i, j - 1);
      assert s[..j][..j - 1] == s[..j - 1];
    }
  }

  lemma {:induction false} SumAppend(a: seq<real>, b: seq<real>)
    ensures Sum(a + b) == Sum(a) + Sum(b)
    decreases |b|
  {
    if |b| == 0 {
      assert a + b == a;
    } else {
      assert (a + b)[..|a + b| - 1] == a + b[..|b| - 1];
      SumAppend(a, b[..|b| - 1]);
    }
  }

  lemma {:induction false} SumOfAppend<T>(a: seq<T>, b: seq<T>, f: T -> real)
    ensures SumOf(a + b, f) == SumOf(a, f) + SumOf(b, f)
    decreases |b|
  {
    if |b| == 0 {
      assert a + b == a;
    } else {
      assert (a + b)[..|a + b| - 1] == a + b[..|b| - 1];
      SumOfAppend(a, b[..|b| - 1], f);
    }
  }

  /** A sum over a subsequence of non-negative terms is at most the sum over the whole sequence. */
  lemma {:induction false} SumOfSubsequence<T>(a: seq<T>, b: seq<T>, f: T -> real)
    requires forall x :: x in b ==> f(x) >= 0.0
    requires SubsequenceOf(a, b)
    ensures SumOf(a, f) <= SumOf(b, f)
    decreases |b|
  {
    if |a| == 0 {
      SumOfNonNegative(b, f);
    } else {
      assert |b| > 0;
      assert b == [b[0]] + b[1..];
      SumOfAppend([b[0]], b[1..], f);
      assert SumOf([b[0]], f) == f(b[0]) by {
        assert [b[0]][..0] == [];
      }
      assert forall x :: x in b[1..] ==> x in b;
      if a[0] == b[0] && SubsequenceOf(a[1..], b[1..]) {
        SumOfSubsequence(a[1..], b[1..], f);
        assert a == [a[0]] + a[1..];
        SumOfAppend([a[0]], a[1..], f);
        assert SumOf([a[0]], f) == f(a[0]) by {
          assert [a[0]][..0] == [];
        }
      } else {
        SumOfSubsequence(a, b[1..], f);
      }
    }
  }

  lemma {:induction false} SumOfNonNegative<T>(s: seq<T>, f: T -> real)
    requires forall x :: x in s ==> f(x) >= 0.0
    ensures SumOf(s, f) >= 0.0
    decreases |s|
  {
    if |s| > 0 {
      assert forall x :: x in s[..|s| - 1] ==> x in s;
      SumOfNonNegative(s[..|s| - 1], f);
    }
  }

  /** Each non-negative term is at most the whole sum. */
  lemma {:induction false} SumOfBoundsElement<T>(s: seq<T>, f: T -> real, k: nat)
    requires forall x :: x in s ==> f(x) >= 0.0
    requires k < |s|
    ensures 0.0 <= f(s[k]) <= SumOf(s, f)
    decreases |s|
  {
    var init := s[..|s| - 1];
    assert forall x :: x in init ==> x in s;
    assert s[|s| - 1] in s;
    if k == |s| - 1 {
      SumOfNonNegative(init, f);
    } else {
      assert init[k] == s[k];
      SumOfBoundsElement(init, f, k);
    }
  }

  /** Filtering a non-empty sequence decides its head first. */
  lemma {:induction false} FilterUnfold<T(!new)>(s: seq<T>, p: T -> bool)
    requires |s| > 0
    ensures Filter(s, p) == (if p(s[0]) then [s[0]] else []) + Filter(s[1..], p)
  {
  }

  /** The same, for a sequence written as head and tail. */
  lemma {:induction false} FilterCons<T(!new)>(x: T, s: seq<T>, p: T -> bool)
    ensures Filter([x] + s, p) == (if p(x) then [x] else []) + Filter(s, p)
  {
    assert ([x] + s)[1..] == s;
  }

  /** The conjunction of two tests. */
  function Both<T>(p: T -> bool, q: T -> bool): T -> bool
  {
    (x: T) => p(x) && q(x)
  }

  /** Two successive filters are one filter by the conjunction. */
  lemma {:induction false} FilterFilter<T(!new)>(s: seq<T>, p: T -> bool, q: T -> bool)
    ensures Filter(Filter(s, p), q) == Filter(s, Both(p, q))
    decreases |s|
  {
    if |s| > 0 {
      FilterFilter(s[1..], p, q);
      if p(s[0]) {
        FilterCons(s[0], Filter(s[1..], p), q);
      }
    }
  }

  /** A filter whose predicate holds everywhere keeps the whole sequence. */
  lemma {:induction false} FilterKeepsAll<T(!new)>(s: seq<T>, p: T -> bool)
    requires forall i :: 0 <= i < |s| ==> p(s[i])
    ensures Filter(s, p) == s
    decreases |s|
  {
    if |s| > 0 {
      FilterKeepsAll(s[1..], p);
    }
  }

  /** Filtering by a weaker predicate keeps everything a stronger one keeps, in order. */
  lemma {:induction false} FilterWeaker<T(!new)>(s: seq<T>, p: T -> bool, q: T -> bool)
    requires forall x :: p(x) ==> q(x)
    ensures SubsequenceOf(Filter(s, p), Filter(s, q))
    decreases |s|
  {
    if |s| > 0 {
      FilterWeaker(s[1..], p, q);
      var a := Filter(s[1..], p);
      var b := Filter(s[1..], q);
      if p(s[0]) {
        assert Filter(s, p) == [s[0]] + a;
        assert Filter(s, q) == [s[0]] + b;
        assert ([s[0]] + a)[1..] == a;
        assert ([s[0]] + b)[1..] == b;
      } else if q(s[0]) {
        assert Filter(s, q) == [s[0]] + b;
        assert ([s[0]] + b)[1..] == b;
        SubsequenceDropHead(Filter(s, p), s[0], b);
      }
    }
  }

  /** A subsequence of a tail is a subsequence of the whole. */
  lemma {:induction false} SubsequenceDropHead<T>(a: seq<T>, x: T, b: seq<T>)
    requires SubsequenceOf(a, b)
    ensures SubsequenceOf(a, [x] + b)
  {
    assert ([x] + b)[1..] == b;
  }

  /** The first `n` elements of `s`, or all of it when it is shorter (`slice(0, n)`). */
  function Take<T>(s: seq<T>, n: nat): (r: seq<T>)
    ensures |r| <= n && |r| <= |s|
    ensures |r| == n || |r| == |s|
    ensures r == s[..|r|]
  {
    if |s| <= n then s else s[..n]
  }

  /** Keys never increase from left to right. */
  predicate SortedDesc<T>(s: seq<T>, key: T -> real)
  {
    forall i, j :: 0 <= i < j < |s| ==> key(s[i]) >= key(s[j])
  }

  /**
   * Inserts `x` into a key-descending sequence in front of the first element
   * whose key does not exceed its own.
   */
  function InsertDesc<T(==)>(x: T, s: seq<T>, key: T -> real): (r: seq<T>)
    requires SortedDesc(s, key)
    ensures |r| == |s| + 1
    ensures multiset(r) == multiset(s) + multiset{x}
    ensures SortedDesc(r, key)
  {
    if |s| == 0 then [x]
    else if key(s[0]) > key(x) then
      var rest := InsertDesc(x, s[1..], key);
      assert s == [s[0]] + s[1..];
      InsertDescHead(x, s, key, rest);
      [s[0]] + rest
    else
      SortedCons(x, s, key);
      [x] + s
  }

  /** Prepending an element whose key bounds all the others keeps the order. */
  lemma {:induction false} SortedCons<T>(a: T, s: seq<T>, key: T -> real)
    requires SortedDesc(s, key)
    requires |s| == 0 || key(a) >= key(s[0])
    ensures SortedDesc([a] + s, key)
  {
    var r := [a] + s;
    forall i, j | 0 <= i < j < |r| ensures key(r[i]) >= key(r[j]) {
      if i == 0 {
        assert r[j] == s[j - 1];
      } else {
        assert r[i] == s[i - 1] && r[j] == s[j - 1];
      }
    }
  }

  /** The head that insertion steps over stays in front of everything inserted behind it. */
  lemma {:induction false} InsertDescHead<T>(x: T, s: seq<T>, key: T -> real, rest: seq<T>)
    requires |s| > 0 && SortedDesc(s, key) && key(s[0]) > key(x)
    requires SortedDesc(rest, key) && multiset(rest) == multiset(s[1..]) + multiset{x}
    ensures SortedDesc([s[0]] + rest, key)
  {
    if |rest| > 0 {
      assert rest[0] in multiset(rest);
      if rest[0] != x {
        assert rest[0] in multiset(s[1..]);
        var j :| 0 <= j < |s[1..]| && s[1..][j] == rest[0];
        assert s[j + 1] == rest[0];
      }
    }
    SortedCons(s[0], rest, key);
  }

  /**
   * `s.sort((a, b) => key(b) - key(a))`: an insertion sort into non-increasing
   * key order that, like the stable `Array.prototype.sort`, keeps elements with
   * equal keys in their original order (see SortDescStable).
   */
  function SortDesc<T(==)>(s: seq<T>, key: T -> real): (r: seq<T>)
    ensures |r| == |s|
    ensures multiset(r) == multiset(s)
    ensures SortedDesc(r, key)
  {
    if |s| == 0 then []
    else
      assert s == [s[0]] + s[1..];
      InsertDesc(s[0], SortDesc(s[1..], key), key)
  }

  /** The predicate "has key `v`". */
  function KeyIs<T>(key: T -> real, v: real): T -> bool
  {
    (y: T) => key(y) == v
  }

  /** Among elements sharing one key, insertion puts `x` in front of the ones already there. */
  lemma {:induction false} InsertDescStable<T(!new)>(x: T, s: seq<T>, key: T -> real, v: real)
    requires SortedDesc(s, key)
    ensures Filter(InsertDesc(x, s, key), KeyIs(key, v))
         == (if key(x) == v then [x] else []) + Filter(s, KeyIs(key, v))
    decreases |s|
  {
    var p := KeyIs(key, v);
    if |s| == 0 {
      FilterCons(x, [], p);
      assert [x] + [] == [x];
    } else if key(s[0]) > key(x) {
      SortedTail(s, key);
      var rest := InsertDesc(x, s[1..], key);
      InsertDescStable(x, s[1..], key, v);
      assert InsertDesc(x, s, key) == [s[0]] + rest;
      assert s == [s[0]] + s[1..];
      FilterPastHead(s[0], x, rest, s[1..], p);
    } else {
      FilterCons(x, s, p);
    }
  }

  lemma {:induction false} SortedTail<T>(s: seq<T>, key: T -> real)
    requires |s| > 0 && SortedDesc(s, key)
    ensures SortedDesc(s[1..], key)
  {
  }

  /**
   * The step of InsertDescStable where `x` moves past a head `h` that the
   * filter cannot keep together with `x`.
   */
  lemma {:induction false} FilterPastHead<T(!new)>(h: T, x: T, rest: seq<T>, tail: seq<T>, p: T -> bool)
    requires !(p(h) && p(x))
    requires Filter(rest, p) == (if p(x) then [x] else []) + Filter(tail, p)
    ensures Filter([h] + rest, p) == (if p(x) then [x] else []) + Filter([h] + tail, p)
  {
    FilterCons(h, rest, p);
    FilterCons(h, tail, p);
    SwapDisjoint(if p(h) then [h] else [], if p(x) then [x] else [], Filter(tail, p));
  }

  /** Two parts of which one is empty can be swapped. */
  lemma {:induction false} SwapDisjoint<T>(a: seq<T>, b: seq<T>, c: seq<T>)
    requires a == [] || b == []
    ensures a + (b + c) == b + (a + c)
  {
    if a == [] {
      assert a + (b + c) == b + c;
    } else {
      assert b + (a + c) == a + c;
    }
  }

  /** The sort is stable: the elements with any one key keep their relative order. */
  lemma {:induction false} SortDescStable<T(!new)>(s: seq<T>, key: T -> real, v: real)
    ensures Filter(SortDesc(s, key), KeyIs(key, v)) == Filter(s, KeyIs(key, v))
    decreases |s|
  {
    if |s| > 0 {
      SortDescStable(s[1..], key, v);
      InsertDescStable(s[0], SortDesc(s[1..], key), key, v);
      FilterCons(s[0], s[1..], KeyIs(key, v));
      assert s == [s[0]] + s[1..];
    }
  }

  /** A sequence already in order is left as it is. */
  lemma {:induction false} SortDescSorted<T>(s: seq<T>, key: T -> real)
    requires SortedDesc(s, key)
    ensures SortDesc(s, key) == s
    decreases |s|
  {
    if |s| > 0 {
      SortDescSorted(s[1..], key);
      assert s == [s[0]] + s[1..];
    }
  }

  /** The keys `k` of the elements of `s` are pairwise different. */
  predicate DistinctBy<T, K(==)>(s: seq<T>, k: T -> K)
  {
    forall i, j :: 0 <= i < j < |s| ==> k(s[i]) != k(s[j])
  }

  /** Prepending an element whose key no other element has keeps keys distinct. */
  lemma {:induction false} DistinctCons<T, K>(a: T, s: seq<T>, k: T -> K)
    requires DistinctBy(s, k)
    requires forall y :: y in s ==> k(y) != k(a)
    ensures DistinctBy([a] + s, k)
  {
    var r := [a] + s;
    forall i, j | 0 <= i < j < |r| ensures k(r[i]) != k(r[j]) {
      assert r[j] == s[j - 1];
      if i == 0 {
        assert r[j] in s;
      } else {
        assert r[i] == s[i - 1];
      }
    }
  }

  /** Every element of a multiset-equal sequence is an element of the original. */
  lemma {:induction false} InMultisetTail<T>(y: T, rest: seq<T>, s: seq<T>, x: T)
    requires multiset(rest) == multiset(s) + multiset{x}
    requires y in rest
    ensures y == x || y in s
  {
    assert y in multiset(rest);
  }

  lemma {:induction false} InsertDescDistinct<T, K>(x: T, s: seq<T>, key: T -> real, k: T -> K)
    requires SortedDesc(s, key)
    requires DistinctBy(s, k)
    requires forall y :: y in s ==> k(y) != k(x)
    ensures DistinctBy(InsertDesc(x, s, key), k)
    decreases |s|
  {
    if |s| > 0 && key(s[0]) > key(x) {
      assert s == [s[0]] + s[1..];
      SortedTail(s, key);
      assert DistinctBy(s[1..], k);
      InsertDescDistinct(x, s[1..], key, k);
      var rest := InsertDesc(x, s[1..], key);
      assert InsertDesc(x, s, key) == [s[0]] + rest;
      DistinctPastHead(s[0], x, rest, s[1..], k);
    } else {
      DistinctCons(x, s, k);
    }
  }

  /** The step of InsertDescDistinct where `x` moves past the head `h`. */
  lemma {:induction false} DistinctPastHead<T, K>(h: T, x: T, rest: seq<T>, tail: seq<T>, k: T -> K)
    requires DistinctBy([h] + tail, k) && DistinctBy(rest, k)
    requires multiset(rest) == multiset(tail) + multiset{x}
    requires k(x) != k(h)
    ensures DistinctBy([h] + rest, k)
  {
    forall y | y in rest ensures k(y) != k(h) {
      InMultisetTail(y, rest, tail, x);
      if y != x {
        var j :| 0 <= j < |tail| && tail[j] == y;
        var ht := [h] + tail;
        assert ht[0] == h && ht[j + 1] == y;
        assert k(ht[0]) != k(ht[j + 1]);
      }
    }
    DistinctCons(h, rest, k);
  }

  /** Sorting keeps keys pairwise different. */
  lemma {:induction false} SortDescDistinct<T, K>(s: seq<T>, key: T -> real, k: T -> K)
    requires DistinctBy(s, k)
    ensures DistinctBy(SortDesc(s, key), k)
    decreases |s|
  {
    if |s| > 0 {
      assert DistinctBy(s[1..], k) by {
        forall i, j | 0 <= i < j < |s[1..]| ensures k(s[1..][i]) != k(s[1..][j]) {
          assert s[1..][i] == s[i + 1] && s[1..][j] == s[j + 1];
        }
      }
      SortDescDistinct(s[1..], key, k);
      var sorted := SortDesc(s[1..], key);
      forall y | y in sorted ensures k(y) != k(s[0]) {
        assert y in multiset(sorted);
        assert y in multiset(s[1..]);
        var j :| 0 <= j < |s[1..]| && s[1..][j] == y;
        assert s[j + 1] == y;
      }
      InsertDescDistinct(s[0], sorted, key, k);
    }
  }

  /** Inserting adds the new element's term to a sum. */
  lemma {:induction false} SumOfInsertDesc<T>(x: T, s: seq<T>, key: T -> real, f: T -> real)
    requires SortedDesc(s, key)
    ensures SumOf(InsertDesc(x, s, key), f) == SumOf(s, f) + f(x)
    decreases |s|
  {
    SumOfSingleton(x, f);
    if |s| == 0 {
    } else if key(s[0]) > key(x) {
      SumOfInsertDesc(x, s[1..], key, f);
      SumOfSingleton(s[0], f);
      SumOfAppend([s[0]], InsertDesc(x, s[1..], key), f);
      SumOfAppend([s[0]], s[1..], f);
      assert s == [s[0]] + s[1..];
    } else {
      SumOfAppend([x], s, f);
    }
  }

  /** Sorting leaves a sum unchanged. */
  lemma {:induction false} SumOfSortDesc<T>(s: seq<T>, key: T -> real, f: T -> real)
    ensures SumOf(SortDesc(s, key), f) == SumOf(s, f)
    decreases |s|
  {
    if |s| > 0 {
      SumOfSortDesc(s[1..], key, f);
      SumOfInsertDesc(s[0], SortDesc(s[1..], key), key, f);
      SumOfSingleton(s[0], f);
      SumOfAppend([s[0]], s[1..], f);
      assert s == [s[0]] + s[1..];
    }
  }

  lemma {:induction false} SumOfSingleton<T>(x: T, f: T -> real)
    ensures SumOf([x], f) == f(x)
  {
    assert [x][..0] == [];
  }

  /** A sum of terms each at most another's is at most the other sum. */
  lemma {:induction false} SumOfMonotone<T>(s: seq<T>, f: T -> real, g: T -> real)
    requires forall x :: x in s ==> f(x) <= g(x)
    ensures SumOf(s, f) <= SumOf(s, g)
    decreases |s|
  {
    if |s| > 0 {
      assert forall x :: x in s[..|s| - 1] ==> x in s;
      assert s[|s| - 1] in s;
      SumOfMonotone(s[..|s| - 1], f, g);
    }
  }

  /**
   * The first `n` of a key-descending sort: at most `n` elements of `s`, in
   * key order, and all of `s` when it has fewer than `n`.
   */
  lemma {:induction false} TakeSortDescShape<T>(s: seq<T>, key: T -> real, n: nat)
    ensures |Take(SortDesc(s, key), n)| <= n
    ensures forall x :: x in Take(SortDesc(s, key), n) ==> x in s
    ensures SortedDesc(Take(SortDesc(s, key), n), key)
    ensures |Take(SortDesc(s, key), n)| < n ==> multiset(Take(SortDesc(s, key), n)) == multiset(s)
  {
    var sorted := SortDesc(s, key);
    var r := Take(sorted, n);
    forall x | x in r ensures x in s {
      assert x in sorted;
      assert x in multiset(sorted);
    }
  }

  /**
   * Taking the first `n` of a key-descending sort keeps the largest keys: an
   * element left out has a key no larger than any element kept.
   */
  lemma {:induction false} TakeSortDescTop<T>(s: seq<T>, key: T -> real, n: nat, y: T)
    requires y in s && y !in Take(SortDesc(s, key), n)
    ensures forall x :: x in Take(SortDesc(s, key), n) ==> key(x) >= key(y)
  {
    var sorted := SortDesc(s, key);
    var r := Take(sorted, n);
    assert y in multiset(s);
    assert y in multiset(sorted);
    var j :| 0 <= j < |sorted| && sorted[j] == y;
    assert j >= |r|;
    forall x | x in r ensures key(x) >= key(y) {
      var i :| 0 <= i < |r| && r[i] == x;
      assert sorted[i] == x;
    }
  }
}
