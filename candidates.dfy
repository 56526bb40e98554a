/** Stage 1 of `match_files_from_file_list` (src/match_files.py) for one
    media file: normalise its basename, detect a trailing counter, and
    collect the sidecar names that the counter, strict, fallback and
    trailing-character rules propose. The regular expressions of the
    source are written out as predicates on strings. */
module CandidateRules {
  import opened Wrappers
  import opened Strings
  import opened Seqs
  import opened Sorting
  import opened Path
  import opened Constants

  /** `re.sub(r'-edited$', '', root, flags=re.IGNORECASE)`. */
  function StripEdited(root: string): string
  {
    if |root| >= |EditedSuffix| && Lower(root[|root| - |EditedSuffix|..]) == EditedSuffix
    then root[..|root| - |EditedSuffix|]
    else root
  }

  /** The basename stage 1 works with: the root of the name, without a
      trailing `-edited` in any letter case. */
  function NormalizedBase(media: string): string
  {
    StripEdited(SplitExt(media).0)
  }

  /** A counter group `(digits)`, with at least one digit. */
  predicate IsCounter(c: string)
  {
    |c| >= 3 && c[0] == '(' && c[|c| - 1] == ')'
    && forall i :: 1 <= i < |c| - 1 ==> IsDigit(c[i])
  }

  /** The number of digits at the end of `s`. */
  function TrailingDigits(s: string): (n: nat)
    ensures n <= |s|
    ensures forall i :: |s| - n <= i < |s| ==> IsDigit(s[i])
    ensures n < |s| ==> !IsDigit(s[|s| - n - 1])
  {
    if s == [] || !IsDigit(s[|s| - 1]) then 0
    else TrailingDigits(s[..|s| - 1]) + 1
  }

  /** Where the counter group that ends `s` starts; there is at most one
      such position, because digits are not `(`. */
  function CounterStart(s: string): (r: Option<nat>)
    ensures forall p :: 0 <= p <= |s| ==> (IsCounter(s[p..]) <==> r == Some(p))
  {
    if |s| < 3 || s[|s| - 1] != ')' then
      assert forall p :: 0 <= p <= |s| ==> !IsCounter(s[p..]);
      None
    else
      var d := TrailingDigits(s[..|s| - 1]);
      CounterAt(s, d);
      if d >= 1 && d + 2 <= |s| && s[|s| - 2 - d] == '(' then Some(|s| - 2 - d) else None
  }

  lemma CounterAt(s: string, d: nat)
    requires |s| >= 3 && s[|s| - 1] == ')' && d == TrailingDigits(s[..|s| - 1])
    ensures forall p :: 0 <= p <= |s| ==>
              (IsCounter(s[p..]) <==> d >= 1 && p == |s| - 2 - d && s[p] == '(')
  {
    var t := s[..|s| - 1];
    forall p | 0 <= p <= |s|
      ensures IsCounter(s[p..]) <==> d >= 1 && p == |s| - 2 - d && s[p] == '('
    {
      if IsCounter(s[p..]) {
        assert forall i :: p + 1 <= i < |s| - 1 ==> IsDigit(t[i]) by {
          forall i | p + 1 <= i < |s| - 1 ensures IsDigit(t[i]) {
            assert t[i] == s[p..][i - p];
          }
        }
        assert s[p..][0] == '(' && t[p] == s[p];
      }
      if d >= 1 && p == |s| - 2 - d && s[p] == '(' {
        var c := s[p..];
        forall i | 1 <= i < |c| - 1 ensures IsDigit(c[i]) {
          assert c[i] == t[p + i];
        }
      }
    }
  }

  /** `re.search(r'(.+)(\(\d+\))$', b)`: when `b` is a non-empty name
      followed by a counter group, the pair (name, counter). */
  function CounterSplit(b: string): (r: Option<(string, string)>)
    ensures r.Some? <==> exists p :: 1 <= p <= |b| && IsCounter(b[p..])
    ensures r.Some? ==> |r.value.0| >= 1 && r.value.0 + r.value.1 == b && IsCounter(r.value.1)
  {
    match CounterStart(b)
    case Some(p) =>
      if p >= 1 then
        assert b[..p] + b[p..] == b;
        Some((b[..p], b[p..]))
      else None
    case None => None
  }

  /** `re.sub(r'\(\d+\)$', '', b)`: drops a trailing counter group, which
      here may be the whole of `b`. */
  function StripCounter(b: string): (r: string)
    ensures r <= b
    ensures r == b <==> forall p :: 0 <= p <= |b| ==> !IsCounter(b[p..])
    ensures r != b ==> IsCounter(b[|r|..])
  {
    match CounterStart(b)
    case Some(p) => b[..p]
    case None => b
  }

  /** `re.match(name + ext + '.*' + counter + r'\.json', j)`: `j` starts
      with `stem` (the name and the media extension) and the counter followed
      by `.json` occurs somewhere after it. */
  predicate CounterPatternMatch(stem: string, counter: string, j: string)
  {
    stem <= j && Contains(j[|stem|..], counter + JsonExtension)
  }

  predicate NoParens(s: string)
  {
    '(' !in s && ')' !in s
  }

  /** `[^()]+\.json` matches a prefix of `t`. */
  predicate StrictTail(t: string)
  {
    exists k :: 1 <= k <= |t| && NoParens(t[..k]) && JsonExtension <= t[k..]
  }

  /** `re.match(basename + ext + r'\.[^()]+\.json', j)`, with `stem` the
      basename followed by the media extension. */
  predicate StrictPatternMatch(stem: string, j: string)
  {
    stem + "." <= j && StrictTail(j[|stem| + 1..])
  }

  /** `re.match('^' + basename + r'.*\.json$', j)`. */
  predicate FallbackPatternMatch(basename: string, j: string)
  {
    basename <= j && |basename| + |JsonExtension| <= |j| && EndsWith(j, JsonExtension)
  }

  /** `basename.endswith(('_n-', '_n', '_'))`. */
  predicate HasTrailingQuirk(b: string)
  {
    EndsWith(b, "_n-") || EndsWith(b, "_n") || EndsWith(b, "_")
  }

  /** `basename.rstrip('_n-') + '.json'`. */
  function TrailingCandidate(b: string): string
  {
    RStrip(b, {'_', 'n', '-'}) + JsonExtension
  }

  /** The test the main loop applies to each sidecar: the counter pattern
      when the basename has a counter, else the strict pattern. */
  function PrimaryTest(cm: Option<(string, string)>, b: string, ext: string): string -> bool
  {
    j => match cm
         case Some(nc) => CounterPatternMatch(nc.0 + ext, nc.1, j)
         case None => StrictPatternMatch(b + ext, j)
  }

  /** The test of the loose fallback loop. */
  function FallbackTest(b: string): string -> bool
  {
    j => FallbackPatternMatch(b, j) && '(' !in j
  }

  /** `potential_jsons` before de-duplication, in the order it is built. */
  function RawCandidates(media: string, jsons: seq<string>): seq<string>
  {
    var ext := SplitExt(media).1;
    var b := NormalizedBase(media);
    var cm := CounterSplit(b);
    var primary := Filter(jsons, PrimaryTest(cm, b, ext));
    var found := if cm.None? && primary == [] then Filter(jsons, FallbackTest(b)) else primary;
    found + (if HasTrailingQuirk(b) then [TrailingCandidate(b)] else [])
  }

  /** `sorted(set(potential_jsons))` for one media file. */
  function Candidates(media: string, jsons: seq<string>): seq<string>
  {
    SortedUnique(RawCandidates(media, jsons))
  }

  /** The candidate rules stated one by one: the trailing-character rule
      proposes its name whether or not it is a sidecar of the inventory; a
      sidecar of the inventory is proposed by the counter pattern when the
      basename ends in a counter, otherwise by the strict pattern, and by
      the parenthesis-free fallback only when no sidecar fits the strict
      pattern. */
  predicate IsCandidate(media: string, jsons: seq<string>, x: string)
  {
    var ext := SplitExt(media).1;
    var b := NormalizedBase(media);
    (HasTrailingQuirk(b) && x == TrailingCandidate(b))
    || (x in jsons &&
        match CounterSplit(b)
        case Some(nc) => CounterPatternMatch(nc.0 + ext, nc.1, x)
        case None =>
          StrictPatternMatch(b + ext, x)
          || ((forall y :: y in jsons ==> !StrictPatternMatch(b + ext, y))
              && FallbackPatternMatch(b, x) && '(' !in x))
  }

  /** The candidate list is strictly ascending (so free of duplicates) and
      holds exactly the names the rules propose. */
  lemma CandidatesExactly(media: string, jsons: seq<string>)
    ensures StrictlySorted(Candidates(media, jsons))
    ensures forall x :: x in Candidates(media, jsons) <==> IsCandidate(media, jsons, x)
  {
    var ext := SplitExt(media).1;
    var b := NormalizedBase(media);
    var cm := CounterSplit(b);
    var primary := Filter(jsons, PrimaryTest(cm, b, ext));
    if cm.None? {
      assert primary == [] <==> forall y :: y in jsons ==> !StrictPatternMatch(b + ext, y) by {
        if primary != [] { assert primary[0] in primary; }
      }
    }
  }

  /** One pass of `for json_file in all_json_files: if <test>:
      potential_jsons.append(json_file)`, starting from an empty list. */
  method ScanSidecars(allJson: seq<string>, test: string -> bool) returns (found: seq<string>)
    ensures found == Filter(allJson, test)
  {
    found := [];
    for i := 0 to |allJson|
      invariant found == Filter(allJson[..i], test)
    {
      FilterSnoc(allJson[..i], allJson[i], test);
      assert allJson[..i + 1] == allJson[..i] + [allJson[i]];
      if test(allJson[i]) {
        found := found + [allJson[i]];
      }
    }
    assert allJson[..|allJson|] == allJson;
  }

  /** The body of the stage-1 loop for one media file: one scan of the
      sidecars with the counter or strict pattern, a second scan with the
      fallback when the basename has no counter and the first found nothing,
      the trailing-character candidate, and `sorted(set(...))`. */
  method FindCandidates(media: string, allJson: seq<string>) returns (cands: seq<string>)
    ensures cands == Candidates(media, allJson)
    ensures StrictlySorted(cands)
    ensures forall x :: x in cands <==> IsCandidate(media, allJson, x)
  {
    var mediaExtension := SplitExt(media).1;
    var basename := NormalizedBase(media);
    var counterMatch := CounterSplit(basename);
    var potential := ScanSidecars(allJson, PrimaryTest(counterMatch, basename, mediaExtension));
    if counterMatch.None? && potential == [] {
      potential := ScanSidecars(allJson, FallbackTest(basename));
    }
    if HasTrailingQuirk(basename) {
      potential := potential + [TrailingCandidate(basename)];
    }
    assert potential == RawCandidates(media, allJson);
    cands := SortedUnique(potential);
    CandidatesExactly(media, allJson);
  }
}
