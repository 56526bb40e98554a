/** `match_files_from_file_list` (src/match_files.py): sorts every media file
    of a flat list of names into matched (media, sidecar) pairs, missing
    media names and ambiguous (media, candidates) entries, in three stages
    over lists that are built by appending and then sorted. */
module MatchFiles {
  import opened Wrappers
  import opened Strings
  import opened Seqs
  import opened Sorting
  import opened Path
  import opened Constants
  import opened Util
  import opened CandidateRules

  type AmbiguousEntry = (string, seq<string>)

  function MediaOf(p: Pair): string { p.0 }

  function EntryMedia(e: AmbiguousEntry): string { e.0 }

  function Identity(s: string): string { s }

  /** The extension as the engine compares it: lower-cased. */
  function LowerExt(f: string): string { Lower(SplitExt(f).1) }

  predicate IsJson(f: string) { LowerExt(f) == JsonExtension }

  predicate IsMedia(f: string) { LowerExt(f) in MediaExtensions }

  predicate IsSkipped(f: string) { !IsMedia(f) && !IsJson(f) }

  predicate IsLivePhoto(f: string) { LowerExt(f) == LivePhotoExtension }

  function JsonFiles(names: seq<string>): seq<string> { Filter(names, IsJson) }

  function MediaFiles(names: seq<string>): seq<string> { Filter(names, IsMedia) }

  function SkippedFiles(names: seq<string>): seq<string> { Filter(names, IsSkipped) }

  /** No name is both a sidecar and a media file. */
  lemma JsonIsNotMedia(f: string)
    ensures !(IsJson(f) && IsMedia(f))
  {
    assert JsonExtension !in MediaExtensions;
  }

  /** Every name lands in exactly one of the three groups, and together the
      groups hold the input name for name. */
  lemma InventoryPartition(names: seq<string>)
    ensures multiset(names) == multiset(JsonFiles(names)) + multiset(MediaFiles(names))
                               + multiset(SkippedFiles(names))
    ensures forall f :: f in names ==>
              (if f in JsonFiles(names) then 1 else 0) + (if f in MediaFiles(names) then 1 else 0)
              + (if f in SkippedFiles(names) then 1 else 0) == 1
  {
    forall f ensures (IsJson(f) || IsMedia(f) || IsSkipped(f)) && !(IsJson(f) && IsMedia(f))
                     && !(IsJson(f) && IsSkipped(f)) && !(IsMedia(f) && IsSkipped(f)) {
      JsonIsNotMedia(f);
    }
    FilterPartition3(names, IsJson, IsMedia, IsSkipped);
  }

  /** Where one media file ends up. */
  datatype Verdict = Missing | Matched(sidecar: string) | Ambiguous(prospects: seq<string>)

  /** The three lists the engine builds. */
  datatype Lists = Lists(matched: seq<Pair>, missing: seq<string>, ambiguous: seq<AmbiguousEntry>)

  /** The candidate lists of every media file against one inventory. */
  function CandidatesIn(jsons: seq<string>): string -> seq<string>
  {
    f => Candidates(f, jsons)
  }

  /** Stage 1 over `media` in order, given each file's candidate list: no
      candidate goes to missing, one to matched, two or more to ambiguous
      with the whole list. */
  function Stage1(media: seq<string>, cands: string -> seq<string>): (r: Lists)
    ensures forall p :: p in r.matched ==> p.0 in media && cands(p.0) == [p.1]
    ensures forall f :: f in r.missing <==> f in media && cands(f) == []
    ensures forall e :: e in r.ambiguous ==> e.0 in media && e.1 == cands(e.0) && |e.1| >= 2
    ensures forall f :: f in media && |cands(f)| >= 2 ==> (f, cands(f)) in r.ambiguous
  {
    if media == [] then Lists([], [], [])
    else
      var init, file := media[..|media| - 1], media[|media| - 1];
      assert media == init + [file];
      var prev := Stage1(init, cands);
      var c := cands(file);
      if |c| == 0 then prev.(missing := prev.missing + [file])
      else if |c| > 1 then prev.(ambiguous := prev.ambiguous + [(file, c)])
      else prev.(matched := prev.matched + [(file, c[0])])
  }

  /** Stage 1 puts each media file in exactly one list: the media names of
      the three lists together are the media files, copy for copy. */
  lemma {:induction false} Stage1Conserves(media: seq<string>, cands: string -> seq<string>)
    ensures var r := Stage1(media, cands);
            NamesOf(r.matched, r.missing, r.ambiguous) == multiset(media)
  {
    if media != [] {
      var init, file := media[..|media| - 1], media[|media| - 1];
      Stage1Conserves(init, cands);
      Stage1Step(init, file, cands);
      assert media == init + [file];
      assert multiset(media) == multiset(init) + multiset{file};
    }
  }

  /** The media names held by three lists, copy for copy. */
  function NamesOf(matched: seq<Pair>, missing: seq<string>, ambiguous: seq<AmbiguousEntry>): multiset<string>
  {
    multiset(Map(matched, MediaOf)) + multiset(missing) + multiset(Map(ambiguous, EntryMedia))
  }

  /** Adding one copy to one of three multisets adds it to their sum. */
  lemma SumAddOne(a: multiset<string>, b: multiset<string>, c: multiset<string>, x: string)
    ensures (a + multiset{x}) + b + c == a + b + c + multiset{x}
    ensures a + (b + multiset{x}) + c == a + b + c + multiset{x}
    ensures a + b + (c + multiset{x}) == a + b + c + multiset{x}
  {
  }

  /** Appending one entry to one of three lists adds its name once. */
  lemma NamesOfAppend(matched: seq<Pair>, missing: seq<string>, ambiguous: seq<AmbiguousEntry>,
                      p: Pair, f: string, e: AmbiguousEntry)
    ensures NamesOf(matched + [p], missing, ambiguous) == NamesOf(matched, missing, ambiguous) + multiset{p.0}
    ensures NamesOf(matched, missing + [f], ambiguous) == NamesOf(matched, missing, ambiguous) + multiset{f}
    ensures NamesOf(matched, missing, ambiguous + [e]) == NamesOf(matched, missing, ambiguous) + multiset{e.0}
  {
    var a, b, c := multiset(Map(matched, MediaOf)), multiset(missing), multiset(Map(ambiguous, EntryMedia));
    MapConcat(matched, [p], MediaOf);
    assert multiset(Map(matched + [p], MediaOf)) == a + multiset{p.0};
    MapConcat(ambiguous, [e], EntryMedia);
    assert multiset(Map(ambiguous + [e], EntryMedia)) == c + multiset{e.0};
    assert multiset(missing + [f]) == b + multiset{f};
    SumAddOne(a, b, c, p.0);
    SumAddOne(a, b, c, f);
    SumAddOne(a, b, c, e.0);
  }

  /** One more media file adds its name to exactly one of the three lists. */
  lemma Stage1Step(init: seq<string>, file: string, cands: string -> seq<string>)
    ensures var prev, r := Stage1(init, cands), Stage1(init + [file], cands);
            NamesOf(r.matched, r.missing, r.ambiguous)
            == NamesOf(prev.matched, prev.missing, prev.ambiguous) + multiset{file}
  {
    var media := init + [file];
    assert media[..|media| - 1] == init;
    var prev, r := Stage1(init, cands), Stage1(media, cands);
    var c := cands(file);
    NamesOfAppend(prev.matched, prev.missing, prev.ambiguous, (file, if |c| > 0 then c[0] else file), file, (file, c));
  }

  /** The stage-1 loop: each media file's candidates are computed and the
      file is appended to the list its candidate count selects. */
  method ClassifyMediaFiles(allMedia: seq<string>, allJson: seq<string>)
    returns (matched: seq<Pair>, missing: seq<string>, ambiguous: seq<AmbiguousEntry>)
    ensures Lists(matched, missing, ambiguous) == Stage1(allMedia, CandidatesIn(allJson))
  {
    matched, missing, ambiguous := [], [], [];
    for i := 0 to |allMedia|
      invariant Lists(matched, missing, ambiguous) == Stage1(allMedia[..i], CandidatesIn(allJson))
    {
      var file := allMedia[i];
      assert allMedia[..i + 1][..i] == allMedia[..i];
      var potentialJsons := FindCandidates(file, allJson);
      if |potentialJsons| == 0 {
        missing := missing + [file];
      } else if |potentialJsons| > 1 {
        ambiguous := ambiguous + [(file, potentialJsons)];
      } else {
        matched := matched + [(file, potentialJsons[0])];
      }
    }
    assert allMedia[..|allMedia|] == allMedia;
  }

  /** The body of the stage-2 loop for one missing file, on its root as
      `splitext` gives it (no `-edited` stripping here): the sidecar named
      after the root's first 46 characters when the root is longer and that
      name is in the inventory; else the sidecar of the first stage-1 match
      whose media name contains the root; else, for a root ending in `)`
      and containing `(`, the same search with a trailing counter removed. */
  function Recover(file: string, matched: seq<Pair>, jsons: seq<string>): Option<string>
  {
    var basename := SplitExt(file).0;
    if |basename| >= TruncationCutoff + 1 && basename[..TruncationCutoff] + JsonExtension in jsons then
      Some(basename[..TruncationCutoff] + JsonExtension)
    else
      match FindInMatched(matched, basename)
      case Some(hit) => Some(hit.1)
      case None =>
        if EndsWith(basename, ")") && '(' in basename then
          match FindInMatched(matched, StripCounter(basename))
          case Some(hit) => Some(hit.1)
          case None => None
        else None
  }

  /** The stage-2 body against one set of stage-1 matches and inventory. */
  function RecoverIn(matched: seq<Pair>, jsons: seq<string>): string -> Option<string>
  {
    f => Recover(f, matched, jsons)
  }

  function Found(recover: string -> Option<string>): string -> bool
  {
    f => recover(f).Some?
  }

  function NotFound(recover: string -> Option<string>): string -> bool
  {
    f => recover(f).None?
  }

  /** Stage 2: every missing file is tried against the stage-1 matches; the
      recovered pairs are appended to matched, in the order of `missing`,
      and each recovered name is removed from missing with `list.remove`. */
  method RecoverMissing(matched: seq<Pair>, missing: seq<string>, allJson: seq<string>)
    returns (newMatched: seq<Pair>, newMissing: seq<string>)
    ensures |matched| <= |newMatched| && newMatched[..|matched|] == matched
    ensures Map(newMatched[|matched|..], MediaOf) == Filter(missing, Found(RecoverIn(matched, allJson)))
    ensures forall k :: |matched| <= k < |newMatched| ==>
              Recover(newMatched[k].0, matched, allJson) == Some(newMatched[k].1)
    ensures multiset(newMissing) == multiset(Filter(missing, NotFound(RecoverIn(matched, allJson))))
  {
    var recover := RecoverIn(matched, allJson);
    var recovered := CollectRecovered(missing, recover);
    newMatched := matched + recovered;
    assert newMatched[|matched|..] == recovered;
    FilterComplement(missing, Found(recover), NotFound(recover));
    newMissing := RemoveAll(missing, recovered, Filter(missing, NotFound(recover)));
  }

  /** After the stage-2 loop has seen `missing[..n]`: the recovered names
      are those of the files seen that `recover` finds, each with what it
      found. */
  predicate CollectedRecovered(missing: seq<string>, n: nat, recovered: seq<Pair>, recover: string -> Option<string>)
  {
    n <= |missing|
    && Map(recovered, MediaOf) == Filter(missing[..n], Found(recover))
    && forall k :: 0 <= k < |recovered| ==> recover(recovered[k].0) == Some(recovered[k].1)
  }

  /** The loop `for file in missing_files: ... recovered.append((file, json))`,
      with the loop body given as `recover`. */
  method CollectRecovered(missing: seq<string>, recover: string -> Option<string>)
    returns (recovered: seq<Pair>)
    ensures Map(recovered, MediaOf) == Filter(missing, Found(recover))
    ensures forall k :: 0 <= k < |recovered| ==> recover(recovered[k].0) == Some(recovered[k].1)
  {
    recovered := [];
    for i := 0 to |missing|
      invariant CollectedRecovered(missing, i, recovered, recover)
    {
      var file := missing[i];
      var rec := recover(file);
      RecoveredStep(missing, i, recovered, recover);
      if rec.Some? {
        recovered := recovered + [(file, rec.value)];
      }
    }
    assert missing[..|missing|] == missing;
  }

  /** One turn of the stage-2 loop keeps `CollectedRecovered`. */
  lemma RecoveredStep(missing: seq<string>, i: nat, recovered: seq<Pair>, recover: string -> Option<string>)
    requires i < |missing| && CollectedRecovered(missing, i, recovered, recover)
    ensures var file := missing[i];
            var next := if recover(file).Some? then recovered + [(file, recover(file).value)] else recovered;
            CollectedRecovered(missing, i + 1, next, recover)
  {
    var file := missing[i];
    assert missing[..i + 1] == missing[..i] + [file];
    FilterSnoc(missing[..i], file, Found(recover));
    if recover(file).Some? {
      MapConcat(recovered, [(file, recover(file).value)], MediaOf);
    }
  }

  /** The loop `for f, _ in recovered: missing_files.remove(f)`: each
      recovered name is still present when its turn comes, and what is left
      is `rest`, the part of `missing` that was not recovered. */
  method RemoveAll(missing: seq<string>, recovered: seq<Pair>, ghost rest: seq<string>)
    returns (newMissing: seq<string>)
    requires multiset(missing) == multiset(rest) + multiset(Map(recovered, MediaOf))
    ensures multiset(newMissing) == multiset(rest)
  {
    newMissing := missing;
    for k := 0 to |recovered|
      invariant multiset(newMissing) == multiset(rest) + multiset(Map(recovered[k..], MediaOf))
    {
      RemoveStep(newMissing, rest, recovered, k);
      newMissing := RemoveFirst(newMissing, recovered[k].0);
    }
  }

  /** Each name `RemoveAll` removes is still present, and removing it
      leaves the names of the later recovered pairs. */
  lemma RemoveStep(present: seq<string>, rest: seq<string>, recovered: seq<Pair>, k: nat)
    requires k < |recovered|
    requires multiset(present) == multiset(rest) + multiset(Map(recovered[k..], MediaOf))
    ensures recovered[k].0 in present
    ensures multiset(present) - multiset{recovered[k].0}
            == multiset(rest) + multiset(Map(recovered[k + 1..], MediaOf))
  {
    var f, later := recovered[k].0, multiset(Map(recovered[k + 1..], MediaOf));
    MapConcat([recovered[k]], recovered[k + 1..], MediaOf);
    assert recovered[k..] == [recovered[k]] + recovered[k + 1..];
    assert multiset(Map(recovered[k..], MediaOf)) == multiset{f} + later;
    RemoveOne(multiset(present), multiset(rest), later, f);
  }

  /** Multiset arithmetic for `RemoveStep`. */
  lemma RemoveOne(m: multiset<string>, r: multiset<string>, later: multiset<string>, f: string)
    requires m == r + (multiset{f} + later)
    ensures f in m && m - multiset{f} == r + later
  {
  }

  /** The entries whose media name passes `live`, and the others. */
  function EntryIs(live: string -> bool): AmbiguousEntry -> bool { (e: AmbiguousEntry) => live(e.0) }

  function EntryIsNot(live: string -> bool): AmbiguousEntry -> bool { (e: AmbiguousEntry) => !live(e.0) }

  /** `p` pairs the media name of an entry that passes `live` with that
      entry's first candidate. */
  predicate FirstOfLiveEntry(p: Pair, ambiguous: seq<AmbiguousEntry>, live: string -> bool)
  {
    exists e :: e in ambiguous && live(e.0) && |e.1| > 0 && p == (e.0, e.1[0])
  }

  /** `[x for x in slots if x is not None]`. */
  function Present(slots: seq<Option<AmbiguousEntry>>): seq<AmbiguousEntry>
  {
    if slots == [] then []
    else Present(slots[..|slots| - 1]) + (match slots[|slots| - 1] case Some(e) => [e] case None => [])
  }

  /** Blanking exactly the entries that pass `live` and dropping the blanks
      keeps the other entries in order. */
  lemma {:induction false} PresentDropsLive(ambiguous: seq<AmbiguousEntry>, slots: seq<Option<AmbiguousEntry>>,
                                            live: string -> bool)
    requires |slots| == |ambiguous|
    requires forall i :: 0 <= i < |slots| ==>
               slots[i] == if live(ambiguous[i].0) then None else Some(ambiguous[i])
    ensures Present(slots) == Filter(ambiguous, EntryIsNot(live))
  {
    if slots != [] {
      var n := |slots| - 1;
      PresentDropsLive(ambiguous[..n], slots[..n], live);
    }
  }

  /** Stage 3, with `live` the test `splitext(file)[1].lower() == '.mp4'`:
      every ambiguous entry that passes it is matched with its first, that
      is least, candidate; the matched names are then blanked in the
      ambiguous list and the blanks dropped. */
  method ResolveLivePhotos(matched: seq<Pair>, ambiguous: seq<AmbiguousEntry>, live: string -> bool)
    returns (newMatched: seq<Pair>, newAmbiguous: seq<AmbiguousEntry>)
    requires forall e :: e in ambiguous && live(e.0) ==> |e.1| > 0
    ensures |matched| <= |newMatched| && newMatched[..|matched|] == matched
    ensures Map(newMatched[|matched|..], MediaOf) == Map(Filter(ambiguous, EntryIs(live)), EntryMedia)
    ensures forall k :: |matched| <= k < |newMatched| ==> FirstOfLiveEntry(newMatched[k], ambiguous, live)
    ensures FirstCandidates(newMatched[|matched|..], Filter(ambiguous, EntryIs(live)))
    ensures newAmbiguous == Filter(ambiguous, EntryIsNot(live))
  {
    var recovered := CollectLivePhotos(ambiguous, live);
    newMatched := matched + recovered;
    assert newMatched[|matched|..] == recovered;
    newAmbiguous := ambiguous;
    if |recovered| > 0 {
      newAmbiguous := DropRecovered(ambiguous, Map(recovered, MediaOf), live);
    } else {
      assert |Filter(ambiguous, EntryIs(live))| == 0;
      FilterKeepsAll(ambiguous, EntryIsNot(live));
    }
  }

  /** Pair `k` is the media name of entry `k` with that entry's first
      candidate. */
  predicate FirstCandidates(pairs: seq<Pair>, entries: seq<AmbiguousEntry>)
  {
    |pairs| == |entries|
    && forall k :: 0 <= k < |pairs| ==>
         pairs[k].0 == entries[k].0 && |entries[k].1| > 0 && pairs[k].1 == entries[k].1[0]
  }

  /** Appending an entry and its first-candidate pair keeps
      `FirstCandidates`. */
  lemma FirstCandidatesSnoc(pairs: seq<Pair>, entries: seq<AmbiguousEntry>, e: AmbiguousEntry)
    requires FirstCandidates(pairs, entries) && |e.1| > 0
    ensures FirstCandidates(pairs + [(e.0, e.1[0])], entries + [e])
  {
    var p', e' := pairs + [(e.0, e.1[0])], entries + [e];
    forall k | 0 <= k < |p'|
      ensures p'[k].0 == e'[k].0 && |e'[k].1| > 0 && p'[k].1 == e'[k].1[0]
    {
      if k < |pairs| {
        assert p'[k] == pairs[k] && e'[k] == entries[k];
      }
    }
  }

  /** After the stage-3 loop has seen `ambiguous[..n]`: the recovered pairs
      are, in order, the entries seen that pass `live`, each with its own
      first candidate. */
  predicate CollectedLive(ambiguous: seq<AmbiguousEntry>, n: nat, recovered: seq<Pair>, live: string -> bool)
  {
    n <= |ambiguous|
    && Map(recovered, MediaOf) == Map(Filter(ambiguous[..n], EntryIs(live)), EntryMedia)
    && FirstCandidates(recovered, Filter(ambiguous[..n], EntryIs(live)))
    && forall k :: 0 <= k < |recovered| ==> FirstOfLiveEntry(recovered[k], ambiguous, live)
  }

  /** The loop `for file, prospects in ambiguous_files: if <live photo>:
      recovered.append((file, prospects[0]))`, from an empty `recovered`. */
  method CollectLivePhotos(ambiguous: seq<AmbiguousEntry>, live: string -> bool) returns (recovered: seq<Pair>)
    requires forall e :: e in ambiguous && live(e.0) ==> |e.1| > 0
    ensures Map(recovered, MediaOf) == Map(Filter(ambiguous, EntryIs(live)), EntryMedia)
    ensures forall k :: 0 <= k < |recovered| ==> FirstOfLiveEntry(recovered[k], ambiguous, live)
    ensures FirstCandidates(recovered, Filter(ambiguous, EntryIs(live)))
  {
    recovered := [];
    for i := 0 to |ambiguous|
      invariant CollectedLive(ambiguous, i, recovered, live)
    {
      var (file, prospects) := ambiguous[i];
      LiveStep(ambiguous, i, recovered, live);
      if live(file) {
        recovered := recovered + [(file, prospects[0])];
      }
    }
    assert ambiguous[..|ambiguous|] == ambiguous;
  }

  /** One turn of the stage-3 loop keeps `CollectedLive`. */
  lemma LiveStep(ambiguous: seq<AmbiguousEntry>, i: nat, recovered: seq<Pair>, live: string -> bool)
    requires i < |ambiguous| && CollectedLive(ambiguous, i, recovered, live)
    requires live(ambiguous[i].0) ==> |ambiguous[i].1| > 0
    ensures var e := ambiguous[i];
            var next := if live(e.0) then recovered + [(e.0, e.1[0])] else recovered;
            CollectedLive(ambiguous, i + 1, next, live)
  {
    var e := ambiguous[i];
    assert ambiguous[..i + 1] == ambiguous[..i] + [e];
    FilterSnoc(ambiguous[..i], e, EntryIs(live));
    MapConcat(Filter(ambiguous[..i], EntryIs(live)), [e], EntryMedia);
    if live(e.0) {
      assert e in ambiguous;
      assert FirstOfLiveEntry((e.0, e.1[0]), ambiguous, live);
      MapConcat(recovered, [(e.0, e.1[0])], MediaOf);
      FirstCandidatesSnoc(recovered, Filter(ambiguous[..i], EntryIs(live)), e);
    }
  }

  /** `ambiguous_files[i] = None` for every entry whose name was recovered,
      then `[x for x in ambiguous_files if x is not None]`. */
  method DropRecovered(ambiguous: seq<AmbiguousEntry>, recoveredFs: seq<string>, live: string -> bool)
    returns (newAmbiguous: seq<AmbiguousEntry>)
    requires recoveredFs == Map(Filter(ambiguous, EntryIs(live)), EntryMedia)
    ensures newAmbiguous == Filter(ambiguous, EntryIsNot(live))
  {
    var slots: seq<Option<AmbiguousEntry>> := Map(ambiguous, (e: AmbiguousEntry) => Some(e));
    for i := 0 to |ambiguous|
      invariant |slots| == |ambiguous|
      invariant forall j :: 0 <= j < |slots| ==>
                  slots[j] == if j < i && ambiguous[j].0 in recoveredFs then None else Some(ambiguous[j])
    {
      if ambiguous[i].0 in recoveredFs {
        slots := slots[i := None];
      }
    }
    forall j | 0 <= j < |ambiguous| ensures ambiguous[j].0 in recoveredFs <==> live(ambiguous[j].0) {
      var live_ := Filter(ambiguous, EntryIs(live));
      if live(ambiguous[j].0) {
        assert ambiguous[j] in live_;
        var k :| 0 <= k < |live_| && live_[k] == ambiguous[j];
        assert recoveredFs[k] == ambiguous[j].0;
      }
      if ambiguous[j].0 in recoveredFs {
        var k :| 0 <= k < |recoveredFs| && recoveredFs[k] == ambiguous[j].0;
        assert live_[k] in live_;
      }
    }
    PresentDropsLive(ambiguous, slots, live);
    newAmbiguous := Present(slots);
  }

  /** The decision for one media file, from its candidate list, what the
      stage-2 recovery finds for it and whether it is a live-photo video:
      one candidate, or several for a live-photo video, match it with the
      first (least) candidate; several otherwise leave it ambiguous; none
      leaves it to the recovery. */
  function Decide(c: seq<string>, rec: Option<string>, isLive: bool): Verdict
  {
    if |c| == 0 then
      match rec
      case Some(j) => Matched(j)
      case None => Missing
    else if |c| == 1 || isLive then Matched(c[0])
    else Ambiguous(c)
  }

  /** The decision for `f` under given candidate, recovery and live-photo
      tests. */
  function VerdictUnder(f: string, cands: string -> seq<string>, recover: string -> Option<string>,
                        live: string -> bool): Verdict
  {
    Decide(cands(f), recover(f), live(f))
  }

  /** What the engine decides for the media file `f` of `media`, with the
      recovery run against the stage-1 matches. */
  function FinalVerdict(f: string, media: seq<string>, jsons: seq<string>): Verdict
  {
    var cands := CandidatesIn(jsons);
    VerdictUnder(f, cands, RecoverIn(Stage1(media, cands).matched, jsons), IsLivePhoto)
  }

  /** Stage 1 fails to leave a file missing exactly when every media file
      has a candidate, and leaves one ambiguous exactly when some media file
      has two or more. */
  lemma Stage1Emptiness(media: seq<string>, cands: string -> seq<string>)
    ensures var s1 := Stage1(media, cands);
            (|s1.missing| == 0 <==> forall f :: f in media ==> cands(f) != [])
            && (|s1.ambiguous| > 0 <==> exists f :: f in media && |cands(f)| >= 2)
  {
    var s1 := Stage1(media, cands);
    if |s1.missing| > 0 {
      assert s1.missing[0] in s1.missing;
    }
    if |s1.ambiguous| > 0 {
      assert s1.ambiguous[0] in s1.ambiguous;
    }
  }

  /** Each media name is in exactly one of the three lists, copy for copy. */
  ghost predicate Accounted(media: seq<string>, matched: seq<Pair>, missing: seq<string>,
                            ambiguous: seq<AmbiguousEntry>)
  {
    NamesOf(matched, missing, ambiguous) == multiset(media)
  }

  /** Every match and every missing file carries the verdict the tests give
      it. */
  ghost predicate MatchedAndMissingFinal(cands: string -> seq<string>, recover: string -> Option<string>,
                                         live: string -> bool, matched: seq<Pair>, missing: seq<string>)
  {
    (forall p :: p in matched ==> VerdictUnder(p.0, cands, recover, live) == Matched(p.1))
    && (forall f :: f in missing ==> VerdictUnder(f, cands, recover, live) == Missing)
  }

  /** Every entry of the three lists carries the verdict the tests give it. */
  ghost predicate Settled(cands: string -> seq<string>, recover: string -> Option<string>,
                          live: string -> bool, matched: seq<Pair>, missing: seq<string>,
                          ambiguous: seq<AmbiguousEntry>)
  {
    MatchedAndMissingFinal(cands, recover, live, matched, missing)
    && (forall e :: e in ambiguous ==> VerdictUnder(e.0, cands, recover, live) == Ambiguous(e.1))
  }

  /** The state once stage 2 has run, or was skipped: the stage-1 ambiguous
      list is untouched and the other two lists are final. */
  ghost predicate AfterRecovery(media: seq<string>, cands: string -> seq<string>,
                                recover: string -> Option<string>, live: string -> bool,
                                matched: seq<Pair>, missing: seq<string>, ambiguous: seq<AmbiguousEntry>)
  {
    ambiguous == Stage1(media, cands).ambiguous
    && Accounted(media, matched, missing, ambiguous)
    && MatchedAndMissingFinal(cands, recover, live, matched, missing)
  }

  /** When stage 1 leaves nothing missing, stage 2 is skipped and its
      matches are already final. */
  lemma SkipRecovery(media: seq<string>, cands: string -> seq<string>,
                     recover: string -> Option<string>, live: string -> bool)
    requires |Stage1(media, cands).missing| == 0
    ensures var s1 := Stage1(media, cands);
            AfterRecovery(media, cands, recover, live, s1.matched, s1.missing, s1.ambiguous)
  {
    Stage1Conserves(media, cands);
  }

  /** The matches stage 2 appends are final, and so are those it keeps. */
  lemma StageTwoMatches(cands: string -> seq<string>, recover: string -> Option<string>,
                        live: string -> bool, m1: seq<Pair>, mi1: seq<string>, m2: seq<Pair>)
    requires forall f :: f in mi1 ==> cands(f) == []
    requires forall p :: p in m1 ==> VerdictUnder(p.0, cands, recover, live) == Matched(p.1)
    requires |m1| <= |m2| && m2[..|m1|] == m1
    requires Map(m2[|m1|..], MediaOf) == Filter(mi1, Found(recover))
    requires forall k :: |m1| <= k < |m2| ==> recover(m2[k].0) == Some(m2[k].1)
    ensures forall p :: p in m2 ==> VerdictUnder(p.0, cands, recover, live) == Matched(p.1)
  {
    var added := m2[|m1|..];
    forall p | p in m2 ensures VerdictUnder(p.0, cands, recover, live) == Matched(p.1) {
      var k :| 0 <= k < |m2| && m2[k] == p;
      if k >= |m1| {
        assert Map(added, MediaOf)[k - |m1|] == p.0;
        assert p.0 in Filter(mi1, Found(recover));
      } else {
        assert p in m1;
      }
    }
  }

  /** The files stage 2 leaves missing are missing for good. */
  lemma StageTwoMissing(cands: string -> seq<string>, recover: string -> Option<string>,
                        live: string -> bool, mi1: seq<string>, mi2: seq<string>)
    requires forall f :: f in mi1 ==> cands(f) == []
    requires multiset(mi2) == multiset(Filter(mi1, NotFound(recover)))
    ensures forall f :: f in mi2 ==> VerdictUnder(f, cands, recover, live) == Missing
  {
    forall f | f in mi2 ensures VerdictUnder(f, cands, recover, live) == Missing {
      assert f in multiset(mi2);
      assert f in Filter(mi1, NotFound(recover));
    }
  }

  /** Stage 2 moves names from the missing list to the matches and loses or
      adds none. */
  lemma StageTwoConserves(recover: string -> Option<string>, a: seq<AmbiguousEntry>,
                          m1: seq<Pair>, mi1: seq<string>, m2: seq<Pair>, mi2: seq<string>)
    requires |m1| <= |m2| && m2[..|m1|] == m1
    requires Map(m2[|m1|..], MediaOf) == Filter(mi1, Found(recover))
    requires multiset(mi2) == multiset(Filter(mi1, NotFound(recover)))
    ensures NamesOf(m2, mi2, a) == NamesOf(m1, mi1, a)
  {
    var added := m2[|m1|..];
    assert m2 == m1 + added;
    MapConcat(m1, added, MediaOf);
    FilterComplement(mi1, Found(recover), NotFound(recover));
    SumRegroup(multiset(Map(m1, MediaOf)), multiset(Map(added, MediaOf)), multiset(mi2),
               multiset(Map(a, EntryMedia)));
  }

  /** `(m + l) + n + c == m + (l + n) + c` for multisets. */
  lemma SumRegroup(m: multiset<string>, l: multiset<string>, n: multiset<string>, c: multiset<string>)
    ensures (m + l) + n + c == m + (l + n) + c
    ensures (m + l) + c + n == m + c + (l + n)
  {
  }

  /** After stage 2 every match carries its final verdict, every file still
      missing is missing for good, and no media name was lost or added. */
  lemma StageTwoVerdicts(media: seq<string>, cands: string -> seq<string>,
                         recover: string -> Option<string>, live: string -> bool,
                         m1: seq<Pair>, mi1: seq<string>, m2: seq<Pair>, mi2: seq<string>)
    requires m1 == Stage1(media, cands).matched && mi1 == Stage1(media, cands).missing
    requires |m1| <= |m2| && m2[..|m1|] == m1
    requires Map(m2[|m1|..], MediaOf) == Filter(mi1, Found(recover))
    requires forall k :: |m1| <= k < |m2| ==> recover(m2[k].0) == Some(m2[k].1)
    requires multiset(mi2) == multiset(Filter(mi1, NotFound(recover)))
    ensures AfterRecovery(media, cands, recover, live, m2, mi2, Stage1(media, cands).ambiguous)
  {
    var s1 := Stage1(media, cands);
    Stage1Conserves(media, cands);
    StageTwoMatches(cands, recover, live, m1, mi1, m2);
    StageTwoMissing(cands, recover, live, mi1, mi2);
    StageTwoConserves(recover, s1.ambiguous, m1, mi1, m2, mi2);
  }

  /** When nothing is ambiguous, stage 3 is skipped and the lists are
      settled. */
  lemma SkipLivePhotos(media: seq<string>, cands: string -> seq<string>,
                       recover: string -> Option<string>, live: string -> bool,
                       m: seq<Pair>, mi: seq<string>, a: seq<AmbiguousEntry>)
    requires AfterRecovery(media, cands, recover, live, m, mi, a) && |a| == 0
    ensures Accounted(media, m, mi, a) && Settled(cands, recover, live, m, mi, a)
  {
  }

  /** After stage 3 every match carries its final verdict, every entry left
      ambiguous is ambiguous for good, and no media name was lost or added. */
  lemma StageThreeVerdicts(media: seq<string>, cands: string -> seq<string>,
                           recover: string -> Option<string>, live: string -> bool,
                           m2: seq<Pair>, mi2: seq<string>, m3: seq<Pair>, a3: seq<AmbiguousEntry>)
    requires var a1 := Stage1(media, cands).ambiguous;
             AfterRecovery(media, cands, recover, live, m2, mi2, a1)
             && |m2| <= |m3| && m3[..|m2|] == m2
             && Map(m3[|m2|..], MediaOf) == Map(Filter(a1, EntryIs(live)), EntryMedia)
             && (forall k :: |m2| <= k < |m3| ==> FirstOfLiveEntry(m3[k], a1, live))
             && a3 == Filter(a1, EntryIsNot(live))
    ensures Accounted(media, m3, mi2, a3) && Settled(cands, recover, live, m3, mi2, a3)
  {
    var a1 := Stage1(media, cands).ambiguous;
    StageThreeMatches(cands, recover, live, a1, m2, m3);
    forall e | e in a3 ensures VerdictUnder(e.0, cands, recover, live) == Ambiguous(e.1) {
      assert e in a1 && !live(e.0);
      assert cands(e.0) == e.1 && |e.1| >= 2;
    }
    StageThreeConserves(live, a1, m2, mi2, m3, a3);
  }

  /** The matches stage 3 appends are final, and so are those it keeps. */
  lemma StageThreeMatches(cands: string -> seq<string>, recover: string -> Option<string>,
                          live: string -> bool, a1: seq<AmbiguousEntry>, m2: seq<Pair>, m3: seq<Pair>)
    requires forall e :: e in a1 ==> e.1 == cands(e.0) && |e.1| >= 2
    requires forall p :: p in m2 ==> VerdictUnder(p.0, cands, recover, live) == Matched(p.1)
    requires |m2| <= |m3| && m3[..|m2|] == m2
    requires forall k :: |m2| <= k < |m3| ==> FirstOfLiveEntry(m3[k], a1, live)
    ensures forall p :: p in m3 ==> VerdictUnder(p.0, cands, recover, live) == Matched(p.1)
  {
    forall p | p in m3 ensures VerdictUnder(p.0, cands, recover, live) == Matched(p.1) {
      var k :| 0 <= k < |m3| && m3[k] == p;
      if k >= |m2| {
        assert FirstOfLiveEntry(m3[k], a1, live);
        var e :| e in a1 && live(e.0) && |e.1| > 0 && p == (e.0, e.1[0]);
        assert cands(e.0) == e.1;
      } else {
        assert p == m2[k];
      }
    }
  }

  /** Stage 3 moves names from the ambiguous list to the matches and loses
      or adds none. */
  lemma StageThreeConserves(live: string -> bool, a1: seq<AmbiguousEntry>, m2: seq<Pair>,
                            mi2: seq<string>, m3: seq<Pair>, a3: seq<AmbiguousEntry>)
    requires |m2| <= |m3| && m3[..|m2|] == m2
    requires Map(m3[|m2|..], MediaOf) == Map(Filter(a1, EntryIs(live)), EntryMedia)
    requires a3 == Filter(a1, EntryIsNot(live))
    ensures NamesOf(m3, mi2, a3) == NamesOf(m2, mi2, a1)
  {
    var added := m3[|m2|..];
    assert m3 == m2 + added;
    MapConcat(m2, added, MediaOf);
    FilterComplementMap(a1, EntryIs(live), EntryIsNot(live), EntryMedia);
    SumRegroup(multiset(Map(m2, MediaOf)), multiset(Map(added, MediaOf)), multiset(Map(a3, EntryMedia)),
               multiset(mi2));
  }

  /** Reordering the lists, as the final sort does, keeps them accounted
      for and settled. */
  lemma ReorderKeeps(media: seq<string>, cands: string -> seq<string>,
                     recover: string -> Option<string>, live: string -> bool,
                     m: seq<Pair>, mi: seq<string>, a: seq<AmbiguousEntry>,
                     m': seq<Pair>, mi': seq<string>, a': seq<AmbiguousEntry>)
    requires Accounted(media, m, mi, a) && Settled(cands, recover, live, m, mi, a)
    requires multiset(m') == multiset(m) && multiset(Map(m', MediaOf)) == multiset(Map(m, MediaOf))
    requires multiset(mi') == multiset(mi)
    requires multiset(a') == multiset(a) && multiset(Map(a', EntryMedia)) == multiset(Map(a, EntryMedia))
    ensures Accounted(media, m', mi', a') && Settled(cands, recover, live, m', mi', a')
  {
    forall p | p in m' ensures p in m {
      assert p in multiset(m');
    }
    forall f | f in mi' ensures f in mi {
      assert f in multiset(mi');
    }
    forall e | e in a' ensures e in a {
      assert e in multiset(a');
    }
  }

  /** Three lists that account for every media file hold as many entries as
      there are media files. */
  lemma AccountedLength(media: seq<string>, m: seq<Pair>, mi: seq<string>, a: seq<AmbiguousEntry>)
    requires Accounted(media, m, mi, a)
    ensures |m| + |mi| + |a| == |media|
  {
    assert |multiset(Map(m, MediaOf))| == |m|;
    assert |multiset(Map(a, EntryMedia))| == |a|;
    assert |multiset(mi)| == |mi|;
    assert |multiset(media)| == |media|;
  }

  /** Raised by the source: stage 3 reads `recovered`, a local that only
      stage 2 assigns. */
  datatype Failure = UnboundLocalError

  /** The three lists returned. */
  datatype Classification = Classification(matched: seq<Pair>, missing: seq<string>, ambiguous: seq<AmbiguousEntry>)

  /** Stages 1 to 3, before the final sort. They fail exactly when stage 1
      leaves nothing missing and something ambiguous; otherwise every media
      file ends in exactly one list, with its final verdict. */
  method RunStages(allMedia: seq<string>, allJson: seq<string>) returns (r: Result<Classification, Failure>)
    ensures var s1 := Stage1(allMedia, CandidatesIn(allJson));
            r.Err? <==> |s1.missing| == 0 && |s1.ambiguous| > 0
    ensures r.Ok? ==>
              var cands := CandidatesIn(allJson);
              var c := r.value;
              Accounted(allMedia, c.matched, c.missing, c.ambiguous)
              && Settled(cands, RecoverIn(Stage1(allMedia, cands).matched, allJson), IsLivePhoto,
                         c.matched, c.missing, c.ambiguous)
  {
    var matched, missing, ambiguous := ClassifyMediaFiles(allMedia, allJson);
    ghost var cands := CandidatesIn(allJson);
    ghost var recover := RecoverIn(matched, allJson);
    // `recovered` is a local of the source that only stage 2 binds; it is
    // reset to the empty list there before stage 3 appends to it.
    var recovered: Option<seq<Pair>> := None;
    if |missing| > 0 {
      var m1, mi1 := matched, missing;
      matched, missing := RecoverMissing(matched, missing, allJson);
      StageTwoVerdicts(allMedia, cands, recover, IsLivePhoto, m1, mi1, matched, missing);
      recovered := Some([]);
    } else {
      SkipRecovery(allMedia, cands, recover, IsLivePhoto);
    }
    if |ambiguous| > 0 {
      if recovered.None? {
        return Err(UnboundLocalError);
      }
      var m2, mi2 := matched, missing;
      matched, ambiguous := ResolveLivePhotos(matched, ambiguous, IsLivePhoto);
      StageThreeVerdicts(allMedia, cands, recover, IsLivePhoto, m2, mi2, matched, ambiguous);
    } else {
      SkipLivePhotos(allMedia, cands, recover, IsLivePhoto, matched, missing, ambiguous);
    }
    r := Ok(Classification(matched, missing, ambiguous));
  }

  /** Stages 1 to 3 as evidently intended: stage 3 starts from an empty
      `recovered` list whether or not stage 2 ran. They never fail, and
      every media file ends in exactly one list, with its final verdict. */
  method RunStagesCorrected(allMedia: seq<string>, allJson: seq<string>) returns (c: Classification)
    ensures var cands := CandidatesIn(allJson);
            Accounted(allMedia, c.matched, c.missing, c.ambiguous)
            && Settled(cands, RecoverIn(Stage1(allMedia, cands).matched, allJson), IsLivePhoto,
                       c.matched, c.missing, c.ambiguous)
  {
    var matched, missing, ambiguous := ClassifyMediaFiles(allMedia, allJson);
    ghost var cands := CandidatesIn(allJson);
    ghost var recover := RecoverIn(matched, allJson);
    if |missing| > 0 {
      var m1, mi1 := matched, missing;
      matched, missing := RecoverMissing(matched, missing, allJson);
      StageTwoVerdicts(allMedia, cands, recover, IsLivePhoto, m1, mi1, matched, missing);
    } else {
      SkipRecovery(allMedia, cands, recover, IsLivePhoto);
    }
    if |ambiguous| > 0 {
      var m2, mi2 := matched, missing;
      matched, ambiguous := ResolveLivePhotos(matched, ambiguous, IsLivePhoto);
      StageThreeVerdicts(allMedia, cands, recover, IsLivePhoto, m2, mi2, matched, ambiguous);
    } else {
      SkipLivePhotos(allMedia, cands, recover, IsLivePhoto, matched, missing, ambiguous);
    }
    c := Classification(matched, missing, ambiguous);
  }

  /** Settled lists, under the engine's own tests, carry the verdicts
      `FinalVerdict` gives. */
  lemma SettledFinal(media: seq<string>, jsons: seq<string>,
                     m: seq<Pair>, mi: seq<string>, a: seq<AmbiguousEntry>)
    requires var cands := CandidatesIn(jsons);
             Settled(cands, RecoverIn(Stage1(media, cands).matched, jsons), IsLivePhoto, m, mi, a)
    ensures forall p :: p in m ==> FinalVerdict(p.0, media, jsons) == Matched(p.1)
    ensures forall f :: f in mi ==> FinalVerdict(f, media, jsons) == Missing
    ensures forall e :: e in a ==> FinalVerdict(e.0, media, jsons) == Ambiguous(e.1)
  {
  }

  /** Each media name in exactly one list, with the verdict `FinalVerdict`
      gives it. */
  ghost predicate Classifies(filenames: seq<string>, c: Classification)
  {
    var media, jsons := MediaFiles(filenames), JsonFiles(filenames);
    |c.matched| + |c.missing| + |c.ambiguous| == |media|
    && Accounted(media, c.matched, c.missing, c.ambiguous)
    && (forall p :: p in c.matched ==> FinalVerdict(p.0, media, jsons) == Matched(p.1))
    && (forall f :: f in c.missing ==> FinalVerdict(f, media, jsons) == Missing)
    && (forall e :: e in c.ambiguous ==> FinalVerdict(e.0, media, jsons) == Ambiguous(e.1))
  }

  /** The three lists sorted by media name. */
  predicate SortedLists(c: Classification)
  {
    SortedBy(c.matched, MediaOf) && SortedBy(c.missing, Identity) && SortedBy(c.ambiguous, EntryMedia)
  }

  /** The final `list.sort` calls: matched and ambiguous by media name,
      missing by name. Sorting keeps every verdict and the conservation of
      media names. */
  method SortLists(filenames: seq<string>, c: Classification) returns (d: Classification)
    requires var allMedia, allJson := MediaFiles(filenames), JsonFiles(filenames);
             var cands := CandidatesIn(allJson);
             Accounted(allMedia, c.matched, c.missing, c.ambiguous)
             && Settled(cands, RecoverIn(Stage1(allMedia, cands).matched, allJson), IsLivePhoto,
                        c.matched, c.missing, c.ambiguous)
    ensures SortedLists(d) && Classifies(filenames, d)
  {
    var allJson := JsonFiles(filenames);
    var allMedia := MediaFiles(filenames);
    var matched := SortBy(c.matched, MediaOf);
    var ambiguous := SortBy(c.ambiguous, EntryMedia);
    var missing := SortBy(c.missing, Identity);
    assert Map(missing, Identity) == missing && Map(c.missing, Identity) == c.missing;
    ghost var cands := CandidatesIn(allJson);
    ghost var recover := RecoverIn(Stage1(allMedia, cands).matched, allJson);
    ReorderKeeps(allMedia, cands, recover, IsLivePhoto, c.matched, c.missing, c.ambiguous,
                 matched, missing, ambiguous);
    AccountedLength(allMedia, matched, missing, ambiguous);
    SettledFinal(allMedia, allJson, matched, missing, ambiguous);
    d := Classification(matched, missing, ambiguous);
  }

  /** The whole engine. It fails exactly when every media file has a
      candidate and at least one has several. Otherwise each media file
      appears in exactly one list, with the verdict `FinalVerdict` gives it,
      and the lists are sorted by media name. */
  method MatchFilesFromFileList(filenames: seq<string>) returns (r: Result<Classification, Failure>)
    ensures var media, jsons := MediaFiles(filenames), JsonFiles(filenames);
            r.Err? <==> (forall f :: f in media ==> Candidates(f, jsons) != [])
                        && (exists f :: f in media && |Candidates(f, jsons)| >= 2)
    ensures r.Ok? ==> SortedLists(r.value) && Classifies(filenames, r.value)
  {
    var allJson := JsonFiles(filenames);
    var allMedia := MediaFiles(filenames);
    Stage1Emptiness(allMedia, CandidatesIn(allJson));
    r := RunStages(allMedia, allJson);
    if r.Ok? {
      var d := SortLists(filenames, r.value);
      r := Ok(d);
    }
  }

  /** The engine as evidently intended, with `recovered` bound before
      stage 3 in every case: it always returns three sorted lists that
      classify every media file. */
  method MatchFilesCorrected(filenames: seq<string>) returns (c: Classification)
    ensures SortedLists(c) && Classifies(filenames, c)
  {
    var stages := RunStagesCorrected(MediaFiles(filenames), JsonFiles(filenames));
    c := SortLists(filenames, stages);
  }

  /** The photo of the witness input. */
  const WitnessPhoto: string := "a.jpg"

  /** A sidecar name `a.jpg.<t>.json` of the witness input. */
  function WitnessSidecar(t: char): string
  {
    WitnessPhoto + "." + [t] + JsonExtension
  }

  /** `a.jpg` is a media file with root `a`, extension `.jpg` and no
      counter. */
  lemma WitnessPhotoKind()
    ensures SplitExt(WitnessPhoto) == ("a", ".jpg")
    ensures IsMedia(WitnessPhoto) && NormalizedBase(WitnessPhoto) == "a"
    ensures CounterSplit("a").None?
  {
    SplitExtOfFileName("a", "jpg");
    assert "a" + "." + "jpg" == WitnessPhoto;
    LowerOfLowerCase(".jpg");
    assert LowerExt(WitnessPhoto) == MediaExtensions[0];
  }

  /** `a.jpg.<t>.json` is a sidecar, not a media file, and fits the strict
      pattern of `a.jpg`. */
  lemma WitnessSidecarKind(t: char)
    requires t != '.' && t != '/' && t != '(' && t != ')'
    ensures IsJson(WitnessSidecar(t)) && !IsMedia(WitnessSidecar(t))
    ensures StrictPatternMatch("a" + ".jpg", WitnessSidecar(t))
  {
    var root := WitnessPhoto + "." + [t];
    assert root[0] == 'a' && '/' !in root;
    PlainSidecarName(root);
    var j := WitnessSidecar(t);
    assert "a" + ".jpg" + "." == WitnessPhoto + ".";
    assert j == WitnessPhoto + "." + ([t] + JsonExtension);
    var tail := j[|"a" + ".jpg"| + 1..];
    assert tail == [t] + JsonExtension;
    assert NoParens(tail[..1]) && JsonExtension <= tail[1..];
  }

  /** A plain name ending in `.json` is a sidecar, never a media file. */
  lemma PlainSidecarName(root: string)
    requires '/' !in root && |root| > 0 && root[0] != '.'
    ensures IsJson(root + JsonExtension) && !IsMedia(root + JsonExtension)
  {
    SplitExtOfFileName(root, "json");
    assert root + "." + "json" == root + JsonExtension;
    LowerOfLowerCase(JsonExtension);
    assert LowerExt(root + JsonExtension) == JsonExtension;
  }

  /** A sidecar of the inventory that fits the strict pattern of a media
      file without a counter is one of its candidates. */
  lemma StrictCandidate(media: string, jsons: seq<string>, x: string)
    requires x in jsons && CounterSplit(NormalizedBase(media)).None?
    requires StrictPatternMatch(NormalizedBase(media) + SplitExt(media).1, x)
    ensures x in Candidates(media, jsons)
  {
    CandidatesExactly(media, jsons);
  }

  /** A list holding two different elements has at least two entries. */
  lemma TwoMembers(c: seq<string>, x: string, y: string)
    requires x in c && y in c && x != y
    ensures |c| >= 2
  {
  }

  /** Filtering three names of which only the first passes keeps only the
      first. */
  lemma OnlyFirstKept(x: string, y: string, z: string, p: string -> bool)
    requires p(x) && !p(y) && !p(z)
    ensures x in Filter([x, y, z], p)
    ensures forall f :: f in Filter([x, y, z], p) ==> f == x
  {
  }

  /** In the witness input only the photo is a media file. */
  lemma WitnessMedia()
    ensures var media := MediaFiles([WitnessPhoto, WitnessSidecar('x'), WitnessSidecar('y')]);
            WitnessPhoto in media && forall f :: f in media ==> f == WitnessPhoto
  {
    WitnessPhotoKind();
    WitnessSidecarKind('x');
    WitnessSidecarKind('y');
    OnlyFirstKept(WitnessPhoto, WitnessSidecar('x'), WitnessSidecar('y'), IsMedia);
  }

  /** Filtering three names keeps the last two when both pass. */
  lemma LastTwoKept(x: string, y: string, z: string, p: string -> bool)
    requires p(y) && p(z)
    ensures y in Filter([x, y, z], p) && z in Filter([x, y, z], p)
  {
  }

  /** Both other names of the witness input are in its inventory. */
  lemma WitnessSidecars()
    ensures var jsons := JsonFiles([WitnessPhoto, WitnessSidecar('x'), WitnessSidecar('y')]);
            WitnessSidecar('x') in jsons && WitnessSidecar('y') in jsons
  {
    WitnessSidecarKind('x');
    WitnessSidecarKind('y');
    LastTwoKept(WitnessPhoto, WitnessSidecar('x'), WitnessSidecar('y'), IsJson);
  }

  /** `a.jpg.<t>.json` fits the strict pattern of `a.jpg`, which has no
      counter. */
  lemma WitnessStrict(t: char)
    requires t != '.' && t != '/' && t != '(' && t != ')'
    ensures CounterSplit(NormalizedBase(WitnessPhoto)).None?
    ensures StrictPatternMatch(NormalizedBase(WitnessPhoto) + SplitExt(WitnessPhoto).1, WitnessSidecar(t))
  {
    WitnessPhotoKind();
    WitnessSidecarKind(t);
  }

  /** A sidecar `a.jpg.<t>.json` of the inventory is a candidate of `a.jpg`. */
  lemma WitnessCandidate(t: char, jsons: seq<string>)
    requires t != '.' && t != '/' && t != '(' && t != ')'
    requires WitnessSidecar(t) in jsons
    ensures WitnessSidecar(t) in Candidates(WitnessPhoto, jsons)
  {
    WitnessStrict(t);
    StrictCandidate(WitnessPhoto, jsons, WitnessSidecar(t));
  }

  /** The two sidecars of the witness input differ. */
  lemma WitnessSidecarsDiffer()
    ensures WitnessSidecar('x') != WitnessSidecar('y')
  {
    assert WitnessSidecar('x')[6] == 'x';
  }

  /** The photo of the witness input has both sidecars as candidates. */
  lemma WitnessCandidates(jsons: seq<string>)
    requires WitnessSidecar('x') in jsons && WitnessSidecar('y') in jsons
    ensures |Candidates(WitnessPhoto, jsons)| >= 2
  {
    WitnessCandidate('x', jsons);
    WitnessCandidate('y', jsons);
    WitnessSidecarsDiffer();
    TwoMembers(Candidates(WitnessPhoto, jsons), WitnessSidecar('x'), WitnessSidecar('y'));
  }

  /** A single media file with several candidates leaves nothing missing
      and something ambiguous. */
  lemma LoneAmbiguousFile(media: seq<string>, jsons: seq<string>, f: string)
    requires f in media && (forall g :: g in media ==> g == f) && |Candidates(f, jsons)| >= 2
    ensures (forall g :: g in media ==> Candidates(g, jsons) != [])
            && (exists g :: g in media && |Candidates(g, jsons)| >= 2)
  {
    assert f in media;
  }

  /** One photo with two sidecars of the strict pattern (`a.jpg`,
      `a.jpg.x.json`, `a.jpg.y.json`): nothing is missing and one file is
      ambiguous, so the source raises `UnboundLocalError`. */
  lemma UnboundLocalErrorInput()
    ensures var fs := [WitnessPhoto, WitnessSidecar('x'), WitnessSidecar('y')];
            var media, jsons := MediaFiles(fs), JsonFiles(fs);
            (forall f :: f in media ==> Candidates(f, jsons) != [])
            && (exists f :: f in media && |Candidates(f, jsons)| >= 2)
  {
    var fs := [WitnessPhoto, WitnessSidecar('x'), WitnessSidecar('y')];
    WitnessMedia();
    WitnessSidecars();
    WitnessCandidates(JsonFiles(fs));
    LoneAmbiguousFile(MediaFiles(fs), JsonFiles(fs), WitnessPhoto);
  }

  /** Raised by the source when its input holds the same pair twice. */
  datatype DictFailure = DuplicateFiles

  /** Some pair occurs twice in the list. */
  predicate HasDuplicatePair(l: seq<Pair>)
  {
    exists i, j :: 0 <= i < j < |l| && l[i] == l[j]
  }

  function Elements(l: seq<Pair>): set<Pair>
  {
    set p | p in l
  }

  /** Appending a pair repeats one exactly when it was there already or
      the list had a repeat before. */
  lemma DuplicateSnoc(init: seq<Pair>, x: Pair)
    ensures HasDuplicatePair(init + [x]) <==> HasDuplicatePair(init) || x in init
  {
    var l := init + [x];
    if HasDuplicatePair(l) && x !in init {
      var i, j :| 0 <= i < j < |l| && l[i] == l[j];
      assert j < |init| && init[i] == init[j];
    }
    if HasDuplicatePair(init) {
      var i, j :| 0 <= i < j < |init| && init[i] == init[j];
      assert l[i] == l[j];
    }
    if x in init {
      var i :| 0 <= i < |init| && init[i] == x;
      assert l[i] == l[|init|];
    }
  }

  /** `len(tuple_list) == len(set(tuple_list))` holds exactly when no pair
      is repeated. */
  lemma {:induction false} DistinctCount(l: seq<Pair>)
    ensures |Elements(l)| <= |l|
    ensures |Elements(l)| == |l| <==> !HasDuplicatePair(l)
  {
    if l != [] {
      var init, x := l[..|l| - 1], l[|l| - 1];
      assert l == init + [x];
      DistinctCount(init);
      DuplicateSnoc(init, x);
      assert Elements(l) == Elements(init) + {x};
      assert x in init <==> x in Elements(init);
    }
  }

  /** `{file: json_file for file, json_file in l}`: the pairs are entered
      in order, a later pair overwriting an earlier one with the same name. */
  function PairsToMap(l: seq<Pair>): map<string, string>
  {
    if l == [] then map[] else PairsToMap(l[..|l| - 1])[l[|l| - 1].0 := l[|l| - 1].1]
  }

  /** Every media name of the list is a key of `PairsToMap`, and nothing
      else is. */
  lemma {:induction false} PairsToMapKeys(l: seq<Pair>)
    ensures forall k :: k in PairsToMap(l) <==> exists i :: 0 <= i < |l| && l[i].0 == k
  {
    if l != [] {
      var init := l[..|l| - 1];
      PairsToMapKeys(init);
      forall k ensures k in PairsToMap(l) <==> exists i :: 0 <= i < |l| && l[i].0 == k {
        if k in PairsToMap(init) {
          var i :| 0 <= i < |init| && init[i].0 == k;
          assert l[i].0 == k;
        }
        if exists i :: 0 <= i < |l| && l[i].0 == k {
          var i :| 0 <= i < |l| && l[i].0 == k;
          if i < |init| {
            assert init[i].0 == k;
          }
        }
      }
    }
  }

  /** The value of a key of `PairsToMap` is the sidecar of the last pair
      with that media name. */
  lemma {:induction false} PairsToMapLast(l: seq<Pair>, k: string)
    requires k in PairsToMap(l)
    ensures exists i :: 0 <= i < |l| && l[i] == (k, PairsToMap(l)[k]) && forall j :: i < j < |l| ==> l[j].0 != k
  {
    var init, x := l[..|l| - 1], l[|l| - 1];
    if k == x.0 {
      assert l[|l| - 1] == (k, PairsToMap(l)[k]);
    } else {
      PairsToMapLast(init, k);
      var i :| 0 <= i < |init| && init[i] == (k, PairsToMap(init)[k]) && forall j :: i < j < |init| ==> init[j].0 != k;
      assert l[i] == init[i];
    }
  }

  /** `turn_tuple_list_into_dict`: fails on a repeated pair, else maps
      every media name to its sidecar. */
  function TurnTupleListIntoDict(l: seq<Pair>): (r: Result<map<string, string>, DictFailure>)
    ensures r.Err? <==> HasDuplicatePair(l)
    ensures r.Ok? ==> r.value == PairsToMap(l)
    ensures r.Ok? ==> forall p :: p in l ==> p.0 in r.value
  {
    PairsToMapKeys(l);
    DistinctCount(l);
    if |l| != |Elements(l)| then Err(DuplicateFiles) else Ok(PairsToMap(l))
  }
}
