/** Sequence helpers: list comprehensions with a condition, `map` over a
    list, and Python's `list.remove`. */
module Seqs {

  /** `[x for x in s if p(x)]`. */
  function Filter<T(!new)>(s: seq<T>, p: T -> bool): (r: seq<T>)
    ensures |r| <= |s|
    ensures forall x :: x in r <==> x in s && p(x)
  {
    if s == [] then []
    else Filter(s[..|s| - 1], p) + (if p(s[|s| - 1]) then [s[|s| - 1]] else [])
  }

  lemma FilterSnoc<T(!new)>(s: seq<T>, x: T, p: T -> bool)
    ensures Filter(s + [x], p) == Filter(s, p) + (if p(x) then [x] else [])
  {
    assert (s + [x])[..|s + [x]| - 1] == s;
  }

  /** Keeping the elements that pass `p` and those that pass its complement
      `q` splits `s` as a multiset. */
  lemma {:induction false} FilterComplement<T(!new)>(s: seq<T>, p: T -> bool, q: T -> bool)
    requires forall x :: q(x) == !p(x)
    ensures multiset(s) == multiset(Filter(s, p)) + multiset(Filter(s, q))
  {
    if s != [] {
      var init, x := s[..|s| - 1], s[|s| - 1];
      assert s == init + [x];
      FilterComplement(init, p, q);
      FilterSnocCount(init, x, p);
      FilterSnocCount(init, x, q);
      assert multiset(s) == multiset(init) + multiset{x};
    }
  }

  /** The same split, seen through a projection `f`. */
  lemma {:induction false} FilterComplementMap<T(!new), U>(s: seq<T>, p: T -> bool, q: T -> bool, f: T -> U)
    requires forall x :: q(x) == !p(x)
    ensures multiset(Map(s, f)) == multiset(Map(Filter(s, p), f)) + multiset(Map(Filter(s, q), f))
  {
    if s != [] {
      var init, last := s[..|s| - 1], s[|s| - 1];
      FilterComplementMap(init, p, q, f);
      assert s == init + [last];
      MapConcat(init, [last], f);
      MapConcat(Filter(init, p), if p(last) then [last] else [], f);
      MapConcat(Filter(init, q), if q(last) then [last] else [], f);
    }
  }

  /** Filtering a list with one more element adds that element to the
      multiset of the result exactly when it passes. */
  lemma FilterSnocCount<T(!new)>(s: seq<T>, x: T, p: T -> bool)
    ensures multiset(Filter(s + [x], p)) == multiset(Filter(s, p)) + (if p(x) then multiset{x} else multiset{})
  {
    FilterSnoc(s, x, p);
  }

  /** Three tests of which every element passes exactly one split `s` into
      three lists that together hold `s`. */
  lemma {:induction false} FilterPartition3<T(!new)>(s: seq<T>, p: T -> bool, q: T -> bool, r: T -> bool)
    requires forall x :: (p(x) || q(x) || r(x)) && !(p(x) && q(x)) && !(p(x) && r(x)) && !(q(x) && r(x))
    ensures multiset(s) == multiset(Filter(s, p)) + multiset(Filter(s, q)) + multiset(Filter(s, r))
  {
    if s != [] {
      var init, x := s[..|s| - 1], s[|s| - 1];
      assert s == init + [x];
      FilterPartition3(init, p, q, r);
      FilterSnocCount(init, x, p);
      FilterSnocCount(init, x, q);
      FilterSnocCount(init, x, r);
      assert multiset(s) == multiset(init) + multiset{x};
    }
  }

  /** Nothing is dropped when every element passes. */
  lemma {:induction false} FilterKeepsAll<T(!new)>(s: seq<T>, p: T -> bool)
    requires forall x :: x in s ==> p(x)
    ensures Filter(s, p) == s
  {
    if s != [] {
      FilterKeepsAll(s[..|s| - 1], p);
      assert s == s[..|s| - 1] + [s[|s| - 1]];
    }
  }

  /** `[f(x) for x in s]`. */
  function Map<T, U>(s: seq<T>, f: T -> U): (r: seq<U>)
    ensures |r| == |s|
    ensures forall k :: 0 <= k < |s| ==> r[k] == f(s[k])
  {
    seq(|s|, k requires 0 <= k < |s| => f(s[k]))
  }

  lemma MapConcat<T, U>(a: seq<T>, b: seq<T>, f: T -> U)
    ensures Map(a + b, f) == Map(a, f) + Map(b, f)
  {
  }

  /** The index of the first occurrence of `x`, as `list.index` gives it. */
  function FirstIndex<T(==)>(s: seq<T>, x: T): (i: nat)
    requires x in s
    ensures i < |s| && s[i] == x && x !in s[..i]
  {
    if s[0] == x then 0
    else
      var j := FirstIndex(s[1..], x);
      assert s[..j + 1] == [s[0]] + s[1..][..j];
      j + 1
  }

  /** `s.remove(x)`: drops the first occurrence of `x`; Python raises
      ValueError when `x` is absent, which callers here rule out. */
  function RemoveFirst<T(==)>(s: seq<T>, x: T): (r: seq<T>)
    requires x in s
    ensures |r| == |s| - 1
    ensures multiset(r) == multiset(s) - multiset{x}
    ensures exists i :: 0 <= i < |s| && s[i] == x && x !in s[..i] && r == s[..i] + s[i + 1..]
  {
    var i := FirstIndex(s, x);
    assert s == s[..i] + [x] + s[i + 1..];
    s[..i] + s[i + 1..]
  }
}
