/** Python's `list.sort(key=...)` (a stable sort under `<` on the key) and
    `sorted(set(...))` for lists of strings. */
module Sorting {
  import opened Strings
  import opened Seqs

  /** Keys ascend under Python's string order. */
  predicate SortedBy<T>(s: seq<T>, key: T -> string)
  {
    forall i, j :: 0 <= i < j < |s| ==> LexLe(key(s[i]), key(s[j]))
  }

  /** Strictly ascending, hence free of duplicates. */
  predicate StrictlySorted(s: seq<string>)
  {
    forall i, j :: 0 <= i < j < |s| ==> LexLt(s[i], s[j])
  }

  /** Inserts `x` after every element whose key is not greater than its own,
      which keeps equal keys in arrival order. */
  function InsertBy<T(==)>(x: T, s: seq<T>, key: T -> string): (r: seq<T>)
    ensures multiset(r) == multiset(s) + multiset{x}
  {
    if s == [] then [x]
    else if LexLt(key(x), key(s[0])) then [x] + s
    else
      assert s == [s[0]] + s[1..];
      [s[0]] + InsertBy(x, s[1..], key)
  }

  lemma {:induction false} InsertByKeys<T>(x: T, s: seq<T>, key: T -> string)
    ensures multiset(Map(InsertBy(x, s, key), key)) == multiset(Map(s, key)) + multiset{key(x)}
  {
    if s == [] {
      MapConcat([x], [], key);
    } else if LexLt(key(x), key(s[0])) {
      MapConcat([x], s, key);
    } else {
      var rest := InsertBy(x, s[1..], key);
      InsertByKeys(x, s[1..], key);
      MapConcat([s[0]], rest, key);
      MapConcat([s[0]], s[1..], key);
      assert [s[0]] + s[1..] == s;
    }
  }

  lemma {:induction false} InsertBySorted<T>(x: T, s: seq<T>, key: T -> string)
    requires SortedBy(s, key)
    ensures SortedBy(InsertBy(x, s, key), key)
  {
    if s == [] {
    } else if LexLt(key(x), key(s[0])) {
      forall j | 0 <= j < |s| ensures LexLe(key(x), key(s[j])) {
        if j > 0 { LexLeTransitive(key(x), key(s[0]), key(s[j])); }
      }
    } else {
      var rest := InsertBy(x, s[1..], key);
      InsertBySorted(x, s[1..], key);
      LexLtTotal(key(x), key(s[0]));
      forall y | y in rest ensures LexLe(key(s[0]), key(y)) {
        assert y in multiset(rest);
        if y != x {
          var j :| 1 <= j < |s| && s[j] == y;
        }
      }
      SortedCons(s[0], rest, key);
    }
  }

  lemma SortedCons<T>(x: T, s: seq<T>, key: T -> string)
    requires SortedBy(s, key)
    requires forall y :: y in s ==> LexLe(key(x), key(y))
    ensures SortedBy([x] + s, key)
  {
    forall i, j | 0 <= i < j < |[x] + s| ensures LexLe(key(([x] + s)[i]), key(([x] + s)[j])) {
      assert ([x] + s)[j] == s[j - 1];
      if i > 0 { assert ([x] + s)[i] == s[i - 1]; }
    }
  }

  /** `s.sort(key=key)`: an ascending permutation of `s` that also keeps the
      multiset of keys. */
  function SortBy<T(==)>(s: seq<T>, key: T -> string): (r: seq<T>)
    ensures SortedBy(r, key)
    ensures multiset(r) == multiset(s)
    ensures multiset(Map(r, key)) == multiset(Map(s, key))
  {
    if s == [] then []
    else
      var init := s[..|s| - 1];
      assert s == init + [s[|s| - 1]];
      MapConcat(init, [s[|s| - 1]], key);
      InsertBySorted(s[|s| - 1], SortBy(init, key), key);
      InsertByKeys(s[|s| - 1], SortBy(init, key), key);
      InsertBy(s[|s| - 1], SortBy(init, key), key)
  }

  /** Inserts `x` into a strictly ascending list unless it is already there. */
  function InsertUnique(x: string, s: seq<string>): (r: seq<string>)
    requires StrictlySorted(s)
    ensures StrictlySorted(r)
    ensures forall y :: y in r <==> y == x || y in s
  {
    if s == [] then [x]
    else if x == s[0] then s
    else if LexLt(x, s[0]) then
      forall j | 0 <= j < |s| ensures LexLt(x, s[j]) {
        if j > 0 { LexLtTransitive(x, s[0], s[j]); }
      }
      [x] + s
    else
      var rest := InsertUnique(x, s[1..]);
      LexLtTotal(x, s[0]);
      assert forall y :: y in rest ==> LexLt(s[0], y);
      [s[0]] + rest
  }

  /** `sorted(set(s))`: the distinct elements of `s` in ascending order. */
  function SortedUnique(s: seq<string>): (r: seq<string>)
    ensures StrictlySorted(r)
    ensures forall y :: y in r <==> y in s
  {
    if s == [] then []
    else
      var init := s[..|s| - 1];
      assert s == init + [s[|s| - 1]];
      InsertUnique(s[|s| - 1], SortedUnique(init))
  }
}
