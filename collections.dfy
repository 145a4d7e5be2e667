/**
 * The array operations the screens chain together: `filter`, `find`,
 * summing with `reduce`, and `slice(0, n)`.  Recursive definitions peel off
 * the LAST element, so that a loop over a prefix `s[..i]` extends them one
 * element at a time.
 */
module Collections {
  import opened Types

  /** `s.filter(p)`: the elements satisfying `p`, in their original order. */
  function Filter<T(!new)>(s: seq<T>, p: T -> bool): (r: seq<T>)
    ensures |r| <= |s|
    ensures forall x :: x in r <==> x in s && p(x)
  {
    if s == [] then []
    else Filter(s[..|s| - 1], p) + (if p(s[|s| - 1]) then [s[|s| - 1]] else [])
  }

  /** Filtering distributes over concatenation, so it keeps relative order. */
  lemma {:induction false} FilterAppend<T(!new)>(a: seq<T>, b: seq<T>, p: T -> bool)
    ensures Filter(a + b, p) == Filter(a, p) + Filter(b, p)
    decreases |b|
  {
    if b != [] {
      var b' := b[..|b| - 1];
      assert (a + b)[..|a + b| - 1] == a + b';
      FilterAppend(a, b', p);
    } else {
      assert a + b == a;
    }
  }

  /** Filtering a single element keeps it exactly when it satisfies `p`. */
  lemma FilterSingle<T(!new)>(x: T, p: T -> bool)
    ensures Filter([x], p) == if p(x) then [x] else []
  {
    assert [x][..0] == [];
  }

  /** Filtering by `q` and then by `p` is filtering by both at once. */
  lemma {:induction false} FilterOfFilter<T(!new)>(s: seq<T>, q: T -> bool, p: T -> bool, both: T -> bool)
    requires forall x :: x in s ==> (both(x) <==> q(x) && p(x))
    ensures Filter(Filter(s, q), p) == Filter(s, both)
    decreases |s|
  {
    if s != [] {
      var init, last := s[..|s| - 1], s[|s| - 1];
      assert s == init + [last];
      FilterOfFilter(init, q, p, both);
      var kept := if q(last) then [last] else [];
      FilterAppend(Filter(init, q), kept, p);
      assert kept == [] || kept == [last];
      FilterSingle(last, p);
    }
  }

  lemma {:induction false} FilterAll<T(!new)>(s: seq<T>, p: T -> bool)
    requires forall x :: x in s ==> p(x)
    ensures Filter(s, p) == s
    decreases |s|
  {
    if s != [] {
      var init, last := s[..|s| - 1], s[|s| - 1];
      assert s == init + [last];
      FilterAll(init, p);
    }
  }

  lemma {:induction false} FilterNone<T(!new)>(s: seq<T>, p: T -> bool)
    requires forall x :: x in s ==> !p(x)
    ensures Filter(s, p) == []
    decreases |s|
  {
    if s != [] {
      var init, last := s[..|s| - 1], s[|s| - 1];
      assert s == init + [last];
      FilterNone(init, p);
    }
  }

  /** Filtering does not change what each element is, only which are kept. */
  lemma {:induction false} FilterMultiset<T(!new)>(s: seq<T>, p: T -> bool)
    ensures multiset(Filter(s, p)) <= multiset(s)
    decreases |s|
  {
    if s != [] {
      FilterMultiset(s[..|s| - 1], p);
      assert s == s[..|s| - 1] + [s[|s| - 1]];
    }
  }

  /**
   * `s.find(p)`: the first element satisfying `p`, or None when no element
   * does.
   */
  function Find<T>(s: seq<T>, p: T -> bool): (r: Option<T>)
    ensures r.None? <==> forall i :: 0 <= i < |s| ==> !p(s[i])
    ensures r.Some? ==> exists i :: 0 <= i < |s| && s[i] == r.value && p(s[i]) &&
                          forall j :: 0 <= j < i ==> !p(s[j])
  {
    if s == [] then None
    else if p(s[0]) then Some(s[0])
    else
      var r := Find(s[1..], p);
      if r.Some? then
        ghost var i :| 0 <= i < |s[1..]| && s[1..][i] == r.value && p(s[1..][i]) &&
                       forall j :: 0 <= j < i ==> !p(s[1..][j]);
        assert s[i + 1] == r.value && forall j :: 0 <= j < i + 1 ==> !p(s[j]);
        r
      else r
  }

  /** Whether some element satisfies `p` (JavaScript's truthiness of a `find`). */
  predicate Exists<T>(s: seq<T>, p: T -> bool) {
    Find(s, p).Some?
  }

  /** `s.reduce((t, x) => t + f(x), 0)`. */
  function SumBy<T>(s: seq<T>, f: T -> int): int {
    if s == [] then 0 else SumBy(s[..|s| - 1], f) + f(s[|s| - 1])
  }

  lemma {:induction false} SumByAppend<T>(a: seq<T>, b: seq<T>, f: T -> int)
    ensures SumBy(a + b, f) == SumBy(a, f) + SumBy(b, f)
    decreases |b|
  {
    if b != [] {
      assert (a + b)[..|a + b| - 1] == a + b[..|b| - 1];
      SumByAppend(a, b[..|b| - 1], f);
    } else {
      assert a + b == a;
    }
  }

  /** Summing the first element off the front. */
  lemma SumByCons<T>(x: T, s: seq<T>, f: T -> int)
    ensures SumBy([x] + s, f) == f(x) + SumBy(s, f)
  {
    SumByAppend([x], s, f);
    assert [x][..0] == [];
  }

  /** Summing a function that is never negative gives a non-negative total. */
  lemma {:induction false} SumByNonNegative<T>(s: seq<T>, f: T -> int)
    requires forall x :: x in s ==> f(x) >= 0
    ensures SumBy(s, f) >= 0
    decreases |s|
  {
    if s != [] {
      SumByNonNegative(s[..|s| - 1], f);
    }
  }

  /** `s.slice(0, n)`: the first `n` elements, or all of them when there are fewer. */
  function Take<T>(s: seq<T>, n: nat): (r: seq<T>)
    ensures |r| == if |s| < n then |s| else n
    ensures r <= s
  {
    if |s| <= n then s else s[..n]
  }
}
