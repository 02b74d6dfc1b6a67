/** Generic sequence helpers: the list comprehensions, `.first()` and `.limit(n)`
    that the shop's queries are built from. */
module Seqs {
  import opened Wrappers

  /** The elements of `s` that `keep` accepts, in their original order
      (a `WHERE` clause over a table scan). */
  function Filter<T(!new)>(s: seq<T>, keep: T -> bool): (r: seq<T>)
    ensures |r| <= |s|
    ensures forall x :: x in r <==> x in s && keep(x)
    decreases |s|
  {
    if s == [] then []
    else if keep(s[0]) then [s[0]] + Filter(s[1..], keep)
    else Filter(s[1..], keep)
  }

  /** Filtering distributes over concatenation. */
  lemma {:induction false} FilterAppend<T(!new)>(a: seq<T>, b: seq<T>, keep: T -> bool)
    ensures Filter(a + b, keep) == Filter(a, keep) + Filter(b, keep)
    decreases |a|
  {
    if a == [] {
      assert a + b == b;
    } else {
      assert (a + b)[0] == a[0];
      assert (a + b)[1..] == a[1..] + b;
      FilterAppend(a[1..], b, keep);
    }
  }

  /** Filtering drops an element the filter rejects. */
  lemma FilterSingleRejected<T(!new)>(x: T, keep: T -> bool)
    requires !keep(x)
    ensures Filter([x], keep) == []
  {
    assert [x][1..] == [];
  }

  /** Removing an element the filter rejects does not change what the filter keeps. */
  lemma FilterAroundRejected<T(!new)>(a: seq<T>, x: T, b: seq<T>, keep: T -> bool)
    requires !keep(x)
    ensures Filter(a + [x] + b, keep) == Filter(a + b, keep)
  {
    FilterAppend(a + [x], b, keep);
    FilterAppend(a, [x], keep);
    FilterAppend(a, b, keep);
    FilterSingleRejected(x, keep);
    assert Filter(a, keep) + [] == Filter(a, keep);
  }

  /** Two successive filters keep exactly what their conjunction keeps. */
  lemma {:induction false} FilterFilter<T(!new)>(s: seq<T>, p: T -> bool, q: T -> bool)
    ensures Filter(Filter(s, p), q) == Filter(s, x => p(x) && q(x))
    decreases |s|
  {
    if s != [] {
      FilterFilter(s[1..], p, q);
      if p(s[0]) {
        assert Filter(s, p) == [s[0]] + Filter(s[1..], p);
        assert Filter(s, p)[1..] == Filter(s[1..], p);
      }
    }
  }

  /** The order in which two filters are applied does not change the result. */
  lemma FilterCommutes<T(!new)>(s: seq<T>, p: T -> bool, q: T -> bool)
    ensures Filter(Filter(s, p), q) == Filter(Filter(s, q), p)
  {
    FilterFilter(s, p, q);
    FilterFilter(s, q, p);
    FilterSameKeep(s, x => p(x) && q(x), x => q(x) && p(x));
  }

  /** Filters with pointwise-equal predicates agree. */
  lemma {:induction false} FilterSameKeep<T(!new)>(s: seq<T>, p: T -> bool, q: T -> bool)
    requires forall x :: p(x) == q(x)
    ensures Filter(s, p) == Filter(s, q)
    decreases |s|
  {
    if s != [] {
      FilterSameKeep(s[1..], p, q);
    }
  }

  /** Filtering with a predicate every element meets changes nothing. */
  lemma {:induction false} FilterAllKept<T(!new)>(s: seq<T>, keep: T -> bool)
    requires forall i :: 0 <= i < |s| ==> keep(s[i])
    ensures Filter(s, keep) == s
    decreases |s|
  {
    if s != [] {
      FilterAllKept(s[1..], keep);
    }
  }

  /** A set drawn from the elements of `xs` has no more members than `xs` has entries. */
  lemma {:induction false} SubsetOfSeqCard<T>(a: set<T>, xs: seq<T>)
    requires forall x :: x in a ==> x in xs
    ensures |a| <= |xs|
    decreases |xs|
  {
    if xs == [] {
      assert a == {};
    } else {
      var b := a - {xs[0]};
      SubsetOfSeqCard(b, xs[1..]);
      if xs[0] in a {
        assert a == b + {xs[0]};
      } else {
        assert a == b;
      }
    }
  }

  /** The first element `keep` accepts (SQLAlchemy's `.filter(...).first()`). */
  function First<T>(s: seq<T>, keep: T -> bool): (r: Option<T>)
    ensures r.None? <==> forall i :: 0 <= i < |s| ==> !keep(s[i])
    ensures r.Some? ==> exists i :: 0 <= i < |s| && s[i] == r.value && keep(s[i]) &&
                                    forall j :: 0 <= j < i ==> !keep(s[j])
    decreases |s|
  {
    if s == [] then None
    else if keep(s[0]) then Some(s[0])
    else
      var r := First(s[1..], keep);
      assert forall i :: 1 <= i < |s| ==> s[i] == s[1..][i - 1];
      r
  }

  /** Index of the first element `keep` accepts, or `|s|` when there is none. */
  function FirstIndex<T>(s: seq<T>, keep: T -> bool): (i: nat)
    ensures i <= |s|
    ensures i < |s| ==> keep(s[i])
    ensures forall j :: 0 <= j < i ==> !keep(s[j])
    decreases |s|
  {
    if s == [] then 0
    else if keep(s[0]) then 0
    else 1 + FirstIndex(s[1..], keep)
  }

  /** `First` is the element at `FirstIndex`. */
  lemma {:induction false} FirstAtFirstIndex<T>(s: seq<T>, keep: T -> bool)
    ensures FirstIndex(s, keep) < |s| <==> First(s, keep).Some?
    ensures FirstIndex(s, keep) < |s| ==> First(s, keep).value == s[FirstIndex(s, keep)]
    decreases |s|
  {
    if s != [] && !keep(s[0]) {
      FirstAtFirstIndex(s[1..], keep);
    }
  }

  /** `FirstIndex` looks only at which elements are kept: sequences of the same
      length whose elements are kept at the same positions agree on it. */
  lemma {:induction false} FirstIndexSameKeep<T>(s: seq<T>, t: seq<T>, keep: T -> bool)
    requires |s| == |t|
    requires forall j :: 0 <= j < |s| ==> keep(s[j]) == keep(t[j])
    ensures FirstIndex(s, keep) == FirstIndex(t, keep)
    decreases |s|
  {
    if s != [] && !keep(s[0]) {
      assert forall j :: 0 <= j < |s[1..]| ==> s[1..][j] == s[j + 1] && t[1..][j] == t[j + 1];
      FirstIndexSameKeep(s[1..], t[1..], keep);
    }
  }

  /** At most the first `n` elements (SQL `LIMIT n`). */
  function Take<T>(s: seq<T>, n: nat): (r: seq<T>)
    ensures |r| <= n && |r| <= |s|
    ensures |s| > n ==> |r| == n
    ensures r <= s
    ensures |s| <= n ==> r == s
  {
    if |s| <= n then s else s[..n]
  }

  /** `s` with the element at index `i` removed. */
  function RemoveAt<T>(s: seq<T>, i: nat): (r: seq<T>)
    requires i < |s|
    ensures |r| == |s| - 1
    ensures forall j :: 0 <= j < i ==> r[j] == s[j]
    ensures forall j :: i <= j < |r| ==> r[j] == s[j + 1]
  {
    s[..i] + s[i + 1..]
  }
}
