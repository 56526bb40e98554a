/** Properties of the verdict the engine gives each media file
    (src/match_files.py): where a matched sidecar comes from, how the
    recovery steps are ordered, which candidate a live-photo video takes,
    and when a file stays missing or ambiguous. */
module VerdictFacts {
  import opened Wrappers
  import opened Strings
  import opened Sorting
  import opened Path
  import opened Constants
  import opened Util
  import opened CandidateRules
  import opened MatchFiles

  /** Two first hits of the same search are the same pair. */
  lemma FirstHitUnique(l: seq<Pair>, item: string, k1: int, k2: int)
    requires 0 <= k1 < |l| && 0 <= k2 < |l|
    requires Contains(l[k1].0, item) && NoHitBefore(l, item, k1)
    requires Contains(l[k2].0, item) && NoHitBefore(l, item, k2)
    ensures k1 == k2
  {
  }

  /** The search answers with the sidecar of the first match whose media
      name contains `item`. */
  lemma FirstHitFound(l: seq<Pair>, item: string, k: int)
    requires 0 <= k < |l| && Contains(l[k].0, item) && NoHitBefore(l, item, k)
    ensures FindInMatched(l, item) == Some(l[k])
  {
    var r := FindInMatched(l, item);
    assert !NoHitBefore(l, item, |l|);
    var k' :| 0 <= k' < |l| && l[k'] == r.value && Contains(l[k'].0, item) && NoHitBefore(l, item, k');
    FirstHitUnique(l, item, k, k');
  }

  /** The recovery of a missing file tries three steps in order and stops
      at the first that succeeds: the root cut to 46 characters plus
      `.json` when the root is longer and that name is in the inventory;
      the sidecar of the first stage-1 match whose media name contains the
      root; and, for a root ending in `)` that holds a `(`, the sidecar of
      the first match containing the root without its trailing counter.
      It finds nothing exactly when every step fails. */
  lemma RecoverSteps(file: string, matched: seq<Pair>, jsons: seq<string>)
    ensures var b := SplitExt(file).0;
            var truncated := |b| > TruncationCutoff && b[..TruncationCutoff] + JsonExtension in jsons;
            var retry := EndsWith(b, ")") && '(' in b;
            var r := Recover(file, matched, jsons);
            (truncated ==> r == Some(b[..TruncationCutoff] + JsonExtension))
            && (forall k :: 0 <= k < |matched| && !truncated
                  && Contains(matched[k].0, b) && NoHitBefore(matched, b, k)
                  ==> r == Some(matched[k].1))
            && (forall k :: 0 <= k < |matched| && !truncated && NoHitBefore(matched, b, |matched|) && retry
                  && Contains(matched[k].0, StripCounter(b)) && NoHitBefore(matched, StripCounter(b), k)
                  ==> r == Some(matched[k].1))
            && (r.None? <==> !truncated && NoHitBefore(matched, b, |matched|)
                             && (!retry || NoHitBefore(matched, StripCounter(b), |matched|)))
  {
    var b := SplitExt(file).0;
    forall k | 0 <= k < |matched| && Contains(matched[k].0, b) && NoHitBefore(matched, b, k)
      ensures FindInMatched(matched, b) == Some(matched[k])
    {
      FirstHitFound(matched, b, k);
    }
    forall k | 0 <= k < |matched| && Contains(matched[k].0, StripCounter(b))
               && NoHitBefore(matched, StripCounter(b), k)
      ensures FindInMatched(matched, StripCounter(b)) == Some(matched[k])
    {
      FirstHitFound(matched, StripCounter(b), k);
    }
  }

  /** A recovered sidecar is either a name of the inventory (truncation)
      or the sidecar of one of the stage-1 matches searched. */
  lemma RecoverOrigin(file: string, matched: seq<Pair>, jsons: seq<string>)
    ensures Recover(file, matched, jsons).Some? ==>
              Recover(file, matched, jsons).value in jsons
              || exists p :: p in matched && p.1 == Recover(file, matched, jsons).value
  {
    var b := SplitExt(file).0;
    var r := Recover(file, matched, jsons);
    if r.Some? && !(|b| >= TruncationCutoff + 1 && b[..TruncationCutoff] + JsonExtension in jsons) {
      var hit := FindInMatched(matched, b);
      if hit.Some? {
        assert hit.value in matched;
      } else {
        assert FindInMatched(matched, StripCounter(b)).value in matched;
      }
    }
  }

  /** A matched media file is paired with a sidecar of the inventory, or
      with the name the trailing-character rule made up for some media
      file, which need not be in the inventory. */
  lemma MatchedSidecarOrigin(f: string, media: seq<string>, jsons: seq<string>)
    requires f in media
    ensures FinalVerdict(f, media, jsons).Matched? ==>
              var j := FinalVerdict(f, media, jsons).sidecar;
              j in jsons
              || exists g :: g in media && HasTrailingQuirk(NormalizedBase(g)) && j == TrailingCandidate(NormalizedBase(g))
  {
    var v := FinalVerdict(f, media, jsons);
    var c := Candidates(f, jsons);
    if v.Matched? {
      if |c| > 0 {
        CandidatesExactly(f, jsons);
        assert c[0] in c;
      } else {
        var m1 := Stage1(media, CandidatesIn(jsons)).matched;
        RecoverOrigin(f, m1, jsons);
        if v.sidecar !in jsons {
          var p :| p in m1 && p.1 == v.sidecar;
          assert CandidatesIn(jsons)(p.0) == [p.1];
          CandidatesExactly(p.0, jsons);
          assert p.1 in Candidates(p.0, jsons);
        }
      }
    }
  }

  /** A strictly ascending list whose only value is `x` is `[x]`. */
  lemma SortedSingleton(c: seq<string>, x: string)
    requires StrictlySorted(c) && x in c && forall y :: y in c ==> y == x
    ensures c == [x]
  {
    assert c[0] in c;
    if |c| >= 2 {
      assert c[1] in c && LexLt(c[0], c[1]);
      LexLtIrreflexive(x);
    }
  }

  /** A media file whose rules propose one name has that name as its whole
      candidate list. */
  lemma CandidatesSole(f: string, jsons: seq<string>, x: string)
    requires IsCandidate(f, jsons, x) && forall y :: IsCandidate(f, jsons, y) ==> y == x
    ensures Candidates(f, jsons) == [x]
  {
    var c := Candidates(f, jsons);
    CandidatesExactly(f, jsons);
    forall y | y in c ensures y == x {
      assert IsCandidate(f, jsons, y);
    }
    SortedSingleton(c, x);
  }

  /** A media file with exactly one candidate is matched with it. */
  lemma SoleCandidateMatched(f: string, media: seq<string>, jsons: seq<string>, x: string)
    requires IsCandidate(f, jsons, x) && forall y :: IsCandidate(f, jsons, y) ==> y == x
    ensures FinalVerdict(f, media, jsons) == Matched(x)
  {
    CandidatesSole(f, jsons, x);
  }

  /** The head of a strictly ascending list is its least element. */
  lemma SortedHeadLeast(c: seq<string>)
    requires StrictlySorted(c) && |c| > 0
    ensures forall y :: y in c ==> LexLe(c[0], y)
  {
    forall y | y in c ensures LexLe(c[0], y) {
      var k :| 0 <= k < |c| && c[k] == y;
      if k > 0 {
        assert LexLt(c[0], c[k]);
      }
    }
  }

  /** A media file with some candidate has a least one, at the head of
      its candidate list. */
  lemma CandidatesLeast(f: string, jsons: seq<string>, x: string)
    requires IsCandidate(f, jsons, x)
    ensures |Candidates(f, jsons)| > 0
    ensures var j := Candidates(f, jsons)[0];
            IsCandidate(f, jsons, j) && forall y :: IsCandidate(f, jsons, y) ==> LexLe(j, y)
  {
    var c := Candidates(f, jsons);
    CandidatesExactly(f, jsons);
    assert x in c;
    SortedHeadLeast(c);
    assert c[0] in c;
  }

  /** A live-photo video with at least one candidate is matched with the
      least of them in string order. */
  lemma LivePhotoTakesLeast(f: string, media: seq<string>, jsons: seq<string>, x: string)
    requires IsLivePhoto(f) && IsCandidate(f, jsons, x)
    ensures FinalVerdict(f, media, jsons).Matched?
    ensures var j := FinalVerdict(f, media, jsons).sidecar;
            IsCandidate(f, jsons, j) && forall y :: IsCandidate(f, jsons, y) ==> LexLe(j, y)
  {
    CandidatesLeast(f, jsons, x);
  }

  /** A strictly ascending list has two entries exactly when it holds two
      different values. */
  lemma SortedTwo(c: seq<string>)
    requires StrictlySorted(c)
    ensures |c| >= 2 <==> exists x, y :: x in c && y in c && x != y
  {
    if |c| >= 2 {
      assert LexLt(c[0], c[1]);
      LexLtIrreflexive(c[0]);
      assert c[0] in c && c[1] in c;
    }
    if exists x, y :: x in c && y in c && x != y {
      var x, y :| x in c && y in c && x != y;
    }
  }

  /** A media file has two or more candidates exactly when its rules
      propose two different names. */
  lemma CandidatesTwo(f: string, jsons: seq<string>)
    ensures |Candidates(f, jsons)| >= 2 <==>
              exists x, y :: IsCandidate(f, jsons, x) && IsCandidate(f, jsons, y) && x != y
  {
    var c := Candidates(f, jsons);
    CandidatesExactly(f, jsons);
    SortedTwo(c);
    if exists x, y :: IsCandidate(f, jsons, x) && IsCandidate(f, jsons, y) && x != y {
      var x, y :| IsCandidate(f, jsons, x) && IsCandidate(f, jsons, y) && x != y;
      assert x in c && y in c;
    }
  }

  /** A media file stays ambiguous exactly when it is not a live-photo
      video and has two different candidates; its prospects are then all
      its candidates, in ascending order. */
  lemma AmbiguousVerdict(f: string, media: seq<string>, jsons: seq<string>)
    ensures FinalVerdict(f, media, jsons).Ambiguous? <==>
              !IsLivePhoto(f)
              && exists x, y :: IsCandidate(f, jsons, x) && IsCandidate(f, jsons, y) && x != y
    ensures FinalVerdict(f, media, jsons).Ambiguous? ==>
              var c := FinalVerdict(f, media, jsons).prospects;
              StrictlySorted(c) && forall x :: x in c <==> IsCandidate(f, jsons, x)
  {
    CandidatesTwo(f, jsons);
    CandidatesExactly(f, jsons);
  }

  /** A media file stays missing exactly when it has no candidate and the
      recovery against the stage-1 matches finds nothing. */
  lemma MissingVerdict(f: string, media: seq<string>, jsons: seq<string>)
    ensures FinalVerdict(f, media, jsons) == Missing <==>
              (forall x :: !IsCandidate(f, jsons, x))
              && Recover(f, Stage1(media, CandidatesIn(jsons)).matched, jsons).None?
  {
    var c := Candidates(f, jsons);
    CandidatesExactly(f, jsons);
    if |c| > 0 {
      assert IsCandidate(f, jsons, c[0]);
    }
  }

  /** A media file whose basename ends in `_`, `_n` or `_n-`, alone with an
      empty inventory, is matched with a sidecar that is not there. */
  lemma TrailingQuirkOutsideInventory(f: string)
    requires HasTrailingQuirk(NormalizedBase(f))
    ensures FinalVerdict(f, [f], []) == Matched(TrailingCandidate(NormalizedBase(f)))
  {
    SoleCandidateMatched(f, [f], [], TrailingCandidate(NormalizedBase(f)));
  }
}
