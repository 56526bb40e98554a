/** `_find_in_matched` (src/util.py): a read-only linear search through the
    matched (media, sidecar) pairs. */
module Util {
  import opened Wrappers
  import opened Strings

  type Pair = (string, string)

  /** No pair before index `k` has a media name containing `item`. */
  predicate NoHitBefore(l: seq<Pair>, item: string, k: int)
    requires 0 <= k <= |l|
  {
    forall i :: 0 <= i < k ==> !Contains(l[i].0, item)
  }

  /** The first pair, in list order, whose media name contains `item`, or
      `None` (the source returns `False`) when there is none. */
  function FindInMatched(l: seq<Pair>, item: string): (r: Option<Pair>)
    ensures r.None? <==> NoHitBefore(l, item, |l|)
    ensures r.Some? ==> exists k :: 0 <= k < |l| && l[k] == r.value
                                    && Contains(l[k].0, item) && NoHitBefore(l, item, k)
  {
    if l == [] then None
    else if Contains(l[0].0, item) then
      assert NoHitBefore(l, item, 0);
      Some(l[0])
    else
      var r := FindInMatched(l[1..], item);
      if r.Some? then HitShifts(l, item, r.value); r else r
  }

  lemma HitShifts(l: seq<Pair>, item: string, v: Pair)
    requires l != [] && !Contains(l[0].0, item)
    requires exists k :: 0 <= k < |l[1..]| && l[1..][k] == v
                         && Contains(l[1..][k].0, item) && NoHitBefore(l[1..], item, k)
    ensures exists k :: 0 <= k < |l| && l[k] == v && Contains(l[k].0, item) && NoHitBefore(l, item, k)
  {
    var k :| 0 <= k < |l[1..]| && l[1..][k] == v
             && Contains(l[1..][k].0, item) && NoHitBefore(l[1..], item, k);
    assert l[k + 1] == v && NoHitBefore(l, item, k + 1);
  }

  /** The empty string is part of every name, so any non-empty list answers
      with its first pair. */
  lemma EmptyItemFindsFirst(l: seq<Pair>)
    requires l != []
    ensures FindInMatched(l, "") == Some(l[0])
  {
    EmptyContained(l[0].0);
  }

  /** Only media names are searched: two lists with the same media names in
      the same order give answers at the same position, whatever sidecars
      they carry. */
  lemma {:induction false} SidecarsNotSearched(l: seq<Pair>, m: seq<Pair>, item: string)
    requires |l| == |m|
    requires forall i :: 0 <= i < |l| ==> l[i].0 == m[i].0
    ensures FindInMatched(l, item).None? <==> FindInMatched(m, item).None?
    ensures FindInMatched(l, item).Some? ==>
              exists k :: 0 <= k < |l| && FindInMatched(l, item) == Some(l[k])
                                       && FindInMatched(m, item) == Some(m[k])
  {
    if l != [] && !Contains(l[0].0, item) {
      SidecarsNotSearched(l[1..], m[1..], item);
      if FindInMatched(l, item).Some? {
        var k :| 0 <= k < |l[1..]| && FindInMatched(l[1..], item) == Some(l[1..][k])
                 && FindInMatched(m[1..], item) == Some(m[1..][k]);
        assert l[k + 1] == l[1..][k] && m[k + 1] == m[1..][k];
      }
    } else if l != [] {
      assert FindInMatched(l, item) == Some(l[0]);
    }
  }
}
