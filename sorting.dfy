/**
 * `Array.prototype.sort` with a numeric comparator, as the screens call it
 * (`(a, b) => b.x - a.x` for descending, `a.x - b.x` for ascending).  The
 * engine's sort is stable, so it is modelled by a stable insertion sort and
 * characterised by four facts: the result is ordered, it is a permutation of
 * the input, elements with equal keys keep their input order, and sums over
 * it are unchanged.
 */
module Sorting {
  import opened Collections

  predicate SortedDesc<T>(s: seq<T>, key: T -> int) {
    forall i, j :: 0 <= i < j < |s| ==> key(s[i]) >= key(s[j])
  }

  predicate SortedAsc<T>(s: seq<T>, key: T -> int) {
    forall i, j :: 0 <= i < j < |s| ==> key(s[i]) <= key(s[j])
  }

  /**
   * Places `x` in front of the first element whose key is not larger, so
   * that `x` stays ahead of the equal keys that followed it in the input.
   */
  function Insert<T>(x: T, s: seq<T>, key: T -> int): (r: seq<T>)
    ensures |r| == |s| + 1
    ensures multiset(r) == multiset(s) + multiset{x}
  {
    if s == [] || key(s[0]) <= key(x) then [x] + s
    else
      assert s == [s[0]] + s[1..];
      [s[0]] + Insert(x, s[1..], key)
  }

  /** The stable sort by non-increasing key. */
  function SortDesc<T>(s: seq<T>, key: T -> int): (r: seq<T>)
    ensures |r| == |s|
    ensures multiset(r) == multiset(s)
  {
    if s == [] then []
    else
      assert s == [s[0]] + s[1..];
      Insert(s[0], SortDesc(s[1..], key), key)
  }

  lemma {:induction false} InsertSorted<T>(x: T, s: seq<T>, key: T -> int)
    requires SortedDesc(s, key)
    ensures SortedDesc(Insert(x, s, key), key)
    decreases |s|
  {
    if s != [] && key(s[0]) > key(x) {
      InsertSorted(x, s[1..], key);
      var t := Insert(x, s[1..], key);
      forall y | y in t
        ensures key(y) <= key(s[0])
      {
        assert y in multiset(t);
        assert y == x || y in multiset(s[1..]);
      }
    }
  }

  /** The sort's result is ordered by non-increasing key. */
  lemma {:induction false} SortDescSorted<T>(s: seq<T>, key: T -> int)
    ensures SortedDesc(SortDesc(s, key), key)
    decreases |s|
  {
    if s != [] {
      SortDescSorted(s[1..], key);
      InsertSorted(s[0], SortDesc(s[1..], key), key);
    }
  }

  lemma SwapAroundEmpty<T>(a: seq<T>, b: seq<T>, c: seq<T>)
    requires a == [] || b == []
    ensures a + (b + c) == b + (a + c)
  {
  }

  lemma {:induction false} InsertStable<T(!new)>(x: T, s: seq<T>, key: T -> int, p: T -> bool)
    requires forall i :: 0 <= i < |s| && key(s[i]) > key(x) ==> !(p(s[i]) && p(x))
    ensures Filter(Insert(x, s, key), p) == Filter([x] + s, p)
    decreases |s|
  {
    if s != [] && key(s[0]) > key(x) {
      var s0, rest := s[0], s[1..];
      assert [s0] + rest == s;
      InsertStable(x, rest, key, p);
      var fs0, fx, fr := Filter([s0], p), Filter([x], p), Filter(rest, p);
      FilterSingle(s0, p);
      FilterSingle(x, p);
      assert fs0 == [] || fx == [];
      assert Insert(x, s, key) == [s0] + Insert(x, rest, key);
      FilterAppend([s0], Insert(x, rest, key), p);
      FilterAppend([x], rest, p);
      assert Filter(Insert(x, s, key), p) == fs0 + (fx + fr);
      FilterAppend([s0], rest, p);
      FilterAppend([x], s, p);
      assert Filter([x] + s, p) == fx + (fs0 + fr);
      SwapAroundEmpty(fs0, fx, fr);
    }
  }

  /**
   * Stability: the elements that share one key value come out in the order
   * they went in.
   */
  lemma {:induction false} SortDescStable<T(!new)>(s: seq<T>, key: T -> int, p: T -> bool, k: int)
    requires forall y :: p(y) <==> key(y) == k
    ensures Filter(SortDesc(s, key), p) == Filter(s, p)
    decreases |s|
  {
    if s != [] {
      SortDescStable(s[1..], key, p, k);
      var t := SortDesc(s[1..], key);
      forall i | 0 <= i < |t| && key(t[i]) > key(s[0])
        ensures !(p(t[i]) && p(s[0]))
      {
      }
      InsertStable(s[0], t, key, p);
      FilterAppend([s[0]], SortDesc(s[1..], key), p);
      FilterAppend([s[0]], s[1..], p);
      assert [s[0]] + s[1..] == s;
    }
  }

  lemma {:induction false} InsertSum<T>(x: T, s: seq<T>, key: T -> int, f: T -> int)
    ensures SumBy(Insert(x, s, key), f) == f(x) + SumBy(s, f)
    decreases |s|
  {
    if s == [] || key(s[0]) <= key(x) {
      SumByCons(x, s, f);
    } else {
      InsertSum(x, s[1..], key, f);
      SumByCons(s[0], Insert(x, s[1..], key), f);
      SumByCons(s[0], s[1..], f);
      assert [s[0]] + s[1..] == s;
    }
  }

  /** Sorting does not change any total taken over the sorted elements. */
  lemma {:induction false} SortDescSum<T>(s: seq<T>, key: T -> int, f: T -> int)
    ensures SumBy(SortDesc(s, key), f) == SumBy(s, f)
    decreases |s|
  {
    if s != [] {
      SortDescSum(s[1..], key, f);
      InsertSum(s[0], SortDesc(s[1..], key), key, f);
      SumByCons(s[0], s[1..], f);
      assert [s[0]] + s[1..] == s;
    }
  }

  /** Sorting an already sorted sequence leaves it as it is. */
  lemma {:induction false} SortDescSortedIdentity<T>(s: seq<T>, key: T -> int)
    requires SortedDesc(s, key)
    ensures SortDesc(s, key) == s
    decreases |s|
  {
    if s != [] {
      SortDescSortedIdentity(s[1..], key);
      assert [s[0]] + s[1..] == s;
    }
  }

  /**
   * Taking the first `n` of the sorted elements keeps the `n` largest: every
   * element left out has a key no larger than any element kept.
   */
  lemma TopOfSorted<T(!new)>(s: seq<T>, key: T -> int, n: nat)
    ensures var r := Take(SortDesc(s, key), n);
            forall x, y :: x in multiset(s) - multiset(r) && y in r ==> key(x) <= key(y)
  {
    var t := SortDesc(s, key);
    var r := Take(t, n);
    SortDescSorted(s, key);
    var rest := t[|r|..];
    assert t == r + rest;
    assert multiset(s) - multiset(r) == multiset(rest) by {
      assert multiset(t) == multiset(r) + multiset(rest);
    }
    forall x, y | x in multiset(rest) && y in r
      ensures key(x) <= key(y)
    {
      SortedSplit(t, key, |r|, x, y);
    }
  }

  /** In a descending sequence, nothing after a cut point has a larger key than anything before it. */
  lemma SortedSplit<T>(t: seq<T>, key: T -> int, m: nat, x: T, y: T)
    requires SortedDesc(t, key) && m <= |t|
    requires x in t[m..] && y in t[..m]
    ensures key(x) <= key(y)
  {
    var j :| 0 <= j < |t| - m && t[m..][j] == x;
    var i :| 0 <= i < m && t[..m][i] == y;
    assert t[m + j] == x && t[i] == y;
  }

  /** No two elements share an identifier. */
  predicate DistinctBy<T, K(==)>(s: seq<T>, id: T -> K) {
    forall i, j :: 0 <= i < j < |s| ==> id(s[i]) != id(s[j])
  }

  lemma {:induction false} InsertDistinct<T, K>(x: T, s: seq<T>, key: T -> int, id: T -> K)
    requires DistinctBy(s, id) && forall y :: y in s ==> id(y) != id(x)
    ensures DistinctBy(Insert(x, s, key), id)
    decreases |s|
  {
    if s != [] && key(s[0]) > key(x) {
      InsertDistinct(x, s[1..], key, id);
      var t := Insert(x, s[1..], key);
      forall y | y in t
        ensures id(y) != id(s[0])
      {
        assert y in multiset(t);
        assert y == x || y in multiset(s[1..]);
      }
    }
  }

  /** Sorting keeps identifiers distinct: it only reorders the elements. */
  lemma {:induction false} SortDescDistinct<T, K>(s: seq<T>, key: T -> int, id: T -> K)
    requires DistinctBy(s, id)
    ensures DistinctBy(SortDesc(s, key), id)
    decreases |s|
  {
    if s != [] {
      SortDescDistinct(s[1..], key, id);
      var t := SortDesc(s[1..], key);
      forall y | y in t
        ensures id(y) != id(s[0])
      {
        assert y in multiset(s[1..]);
        var j :| 0 <= j < |s[1..]| && s[1..][j] == y;
        assert s[j + 1] == y;
      }
      InsertDistinct(s[0], t, key, id);
    }
  }

  /** Taking the first `n` elements keeps order and distinct identifiers. */
  lemma TakeKeeps<T, K>(s: seq<T>, key: T -> int, id: T -> K, n: nat)
    ensures SortedDesc(s, key) ==> SortedDesc(Take(s, n), key)
    ensures DistinctBy(s, id) ==> DistinctBy(Take(s, n), id)
  {
    var r := Take(s, n);
    assert forall i :: 0 <= i < |r| ==> r[i] == s[i];
  }

  /** Sorting neither adds nor drops an element. */
  lemma SortDescMembers<T>(s: seq<T>, key: T -> int)
    ensures forall x :: x in SortDesc(s, key) <==> x in s
  {
    var r := SortDesc(s, key);
    forall x
      ensures x in r <==> x in s
    {
      assert x in r <==> x in multiset(r);
      assert x in s <==> x in multiset(s);
    }
  }

  /** The key negated, so that an ascending sort is a descending one on it. */
  function Negated<T>(key: T -> int): T -> int {
    x => -key(x)
  }

  /** The stable sort by non-decreasing key. */
  function SortAsc<T>(s: seq<T>, key: T -> int): (r: seq<T>)
    ensures |r| == |s|
    ensures multiset(r) == multiset(s)
  {
    SortDesc(s, Negated(key))
  }

  lemma SortAscMembers<T>(s: seq<T>, key: T -> int)
    ensures forall x :: x in SortAsc(s, key) <==> x in s
  {
    SortDescMembers(s, Negated(key));
  }

  lemma SortAscSorted<T>(s: seq<T>, key: T -> int)
    ensures SortedAsc(SortAsc(s, key), key)
  {
    SortDescSorted(s, Negated(key));
  }

  lemma SortAscStable<T(!new)>(s: seq<T>, key: T -> int, p: T -> bool, k: int)
    requires forall y :: p(y) <==> key(y) == k
    ensures Filter(SortAsc(s, key), p) == Filter(s, p)
  {
    SortDescStable(s, Negated(key), p, -k);
  }

  /** Taking the first `n` of the ascending order keeps the `n` smallest. */
  lemma BottomOfSorted<T(!new)>(s: seq<T>, key: T -> int, n: nat)
    ensures var r := Take(SortAsc(s, key), n);
            forall x, y :: x in multiset(s) - multiset(r) && y in r ==> key(x) >= key(y)
  {
    var r := Take(SortAsc(s, key), n);
    TopOfSorted(s, Negated(key), n);
    forall x, y | x in multiset(s) - multiset(r) && y in r
      ensures key(x) >= key(y)
    {
      assert Negated(key)(x) <= Negated(key)(y);
    }
  }
}
