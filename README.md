# Sidecar matching engine of google-photos-exif-merger, in Dafny

This project models the sidecar matching engine of google-photos-exif-merger,
`match_files_from_file_list` in `src/match_files.py`. It also models the
engine's helper `_find_in_matched` in `src/util.py` and the small
`turn_tuple_list_into_dict`. The engine takes a flat list of file names from
a photo-archive export. It sorts every media file into one of three lists:

- matched `(media, sidecar)` pairs;
- missing media names;
- ambiguous `(media, candidates)` entries.

It works in three stages:

1. Stage 1 partitions the names by their lower-cased `os.path.splitext`
   extension. For each media file it collects the JSON sidecars that fit one
   of several renaming conventions: a trailing `(n)` counter, the strict
   `<base><ext>.<middle>.json` shape, a parenthesis-free fallback, and the
   trailing `_`, `_n` or `_n-` quirk. It then classifies the file by how many
   distinct candidates it has.
2. Stage 2 tries to recover each missing file:
   - first by the 46-character truncation rule;
   - then by a stage-1 match whose media name contains its basename;
   - then the same search with a trailing `(n)` removed.
3. Stage 3 resolves each ambiguous live-photo video (`.mp4`) to its least
   candidate.

Finally the engine sorts the three lists and asserts that every media file
is accounted for.

## How the model is organised

The model follows the source's form. The engine is imperative, so each of its
loops is a `method` over sequences, proved against a specification function:

| method | source loop | specification |
|---|---|---|
| `ClassifyMediaFiles` | stage-1 loop | `Stage1` |
| `FindCandidates` and `ScanSidecars` | per-file candidate scans | `Candidates` |
| `CollectRecovered` | stage-2 loop | `Recover` |
| `RemoveAll` | the `list.remove` loop | a multiset of the names left |
| `CollectLivePhotos` and `DropRecovered` | stage-3 loops | `Filter` with `EntryIs` / `EntryIsNot` |

`_find_in_matched` and the candidate rules are pure and are functions.

The reference semantics for a media file `f` is `MatchFiles.FinalVerdict(f,
media, jsons)`. It gives the verdict the engine reaches for `f` from:

- its candidate list;
- what stage 2 finds for it against the stage-1 matches;
- whether it is a live-photo video.

The top-level method `MatchFilesFromFileList` has three guarantees:

- It fails with `UnboundLocalError` exactly when every media file has a
  candidate and at least one has two or more (see Findings).
- Otherwise the three lists are sorted by media name.
- Every media name appears in exactly one list, copy for copy, with the
  verdict `FinalVerdict` gives it.

The lemmas of `VerdictFacts` then state what those verdicts mean in terms of
the candidate rules (`CandidateRules.IsCandidate`) and the recovery steps.

Modules, one per file:

| module | contents |
|---|---|
| `Wrappers` | `Option` and `Result` |
| `Constants` | the constants of `src/__init__.py` and the two literals of the engine |
| `Strings` | ASCII `str.lower`, `endswith`, `in` on strings, `rstrip`, code-point string order |
| `Seqs` | comprehensions with a condition, `map`, `list.remove` |
| `Sorting` | `list.sort` by key, `sorted(set(...))` |
| `Path` | `os.path.splitext` |
| `Util` | `_find_in_matched` |
| `CandidateRules` | stage 1 for one media file |
| `MatchFiles` | the engine and `turn_tuple_list_into_dict` |
| `VerdictFacts` | properties of the final verdicts |

The module constants are these:

- `MediaExtensions`, `LivePhotoExtension` (`.mp4`) and `JsonExtension`
  (`.json`), copied from `src/__init__.py:2-9`;
- `TruncationCutoff` = 46, from `src/match_files.py:106-107`;
- `EditedSuffix` = `-edited`, from `src/match_files.py:52`.

### Behaviour worth knowing

- **The trailing-character rule invents a name.** `rstrip('_n-')` removes
  every trailing `_`, `n` and `-`, not just one character. The name it
  builds is never checked against the inventory, so a matched sidecar need
  not be a file of the inventory. `VerdictFacts.TrailingQuirkOutsideInventory`
  shows this. `VerdictFacts.MatchedSidecarOrigin` states where a matched
  sidecar can come from.
- **`X.mp4.json` does not fit the strict pattern of `X.mp4`.** The strict
  pattern needs a non-empty middle part between `X.mp4.` and `.json`. Only
  the fallback can propose such a name, and only when no sidecar fits the
  strict pattern (`CandidateRules.IsCandidate`,
  `CandidateRules.CandidatesExactly`).
- **The result depends on input order.** The stage-2 search returns the
  first stage-1 match in list order, and that order follows the input
  (`VerdictFacts.RecoverSteps`).
- **Nothing missing but something ambiguous raises `UnboundLocalError`.**
  See Findings.

## Model

| member | source | states |
|---|---|---|
| `Path.SplitExt` | src/match_files.py:34-36 | root and extension concatenate to the name; the extension is empty or a dot followed by no further dot or slash |
| `Path.NoDotNoExt` | src/match_files.py:47-48 | a name without a dot has an empty extension |
| `Path.LeadingDotsNoExt` | src/match_files.py:47-48 | dots that only lead the last path component start no extension |
| `Path.SplitExtOfFileName` | src/match_files.py:47-48 | `root.x`, with a plain root and an extension free of dots and slashes, splits at that last dot |
| `Strings.RStrip` | src/match_files.py:81 | the result is a prefix of the input that ends in a character outside the set, and everything removed is in the set |
| `Strings.LexLtTransitive` | src/match_files.py:84 | the string order used by `sorted` is transitive (with irreflexivity, asymmetry and totality in the lemmas beside it) |
| `Seqs.Filter` | src/match_files.py:34-36 | a comprehension keeps exactly the elements that pass, and never more than the input |
| `Seqs.FilterPartition3` | src/match_files.py:34-36 | three tests that split every element three ways split the list as a multiset |
| `Seqs.FilterComplement` | src/match_files.py:128-132 | the elements that pass and those that fail together make up the list |
| `Seqs.RemoveFirst` | src/match_files.py:132 | `list.remove` cuts out the first occurrence of the element and keeps the rest in order; the list shortens by one and loses one copy of the element |
| `Seqs.FirstIndex` | src/match_files.py:132 | the index `list.remove` works at: an occurrence of the element with none before it |
| `Sorting.SortBy` | src/match_files.py:161-163 | the result is sorted by the key, is a permutation of the input, and keeps the multiset of keys |
| `Sorting.SortedUnique` | src/match_files.py:84 | `sorted(set(...))` is strictly ascending and holds exactly the input's values |
| `Util.FindInMatched` | src/util.py:10-15 | the first pair whose media name contains the item, or none (the source's `False`) exactly when no media name contains it |
| `Util.EmptyItemFindsFirst` | src/util.py:12 | the empty item finds the first pair of any non-empty list |
| `Util.SidecarsNotSearched` | src/util.py:11-13 | only the media names decide the answer: lists with equal media names answer at the same position |
| `VerdictFacts.FirstHitFound` | src/util.py:11-13 | a hit with no hit before it is what the search returns |
| `VerdictFacts.FirstHitUnique` | src/util.py:11-13 | there is only one first hit |
| `CandidateRules.CounterSplit` | src/match_files.py:55-61 | a split exists exactly when the basename ends in `(digits)` after at least one character; the split rejoins to the basename and its second part is the counter |
| `CandidateRules.StripCounter` | src/match_files.py:121 | the result is a prefix of the basename; it differs exactly when the basename ends in a counter, which is then what was removed |
| `CandidateRules.CandidatesExactly` | src/match_files.py:52-84 | the candidate list is strictly ascending and holds exactly the names the counter, strict, fallback and trailing-character rules propose |
| `CandidateRules.ScanSidecars` | src/match_files.py:68-70 | one scan appends exactly the sidecars that pass the test, in inventory order |
| `CandidateRules.FindCandidates` | src/match_files.py:47-84 | the per-file body computes the candidate list: ascending, duplicate-free, exactly the proposed names |
| `MatchFiles.JsonIsNotMedia` | src/match_files.py:34-35 | no name is both a sidecar and a media file |
| `MatchFiles.InventoryPartition` | src/match_files.py:34-36 | each name lands in exactly one of the sidecar, media and skipped groups, and the groups hold the input name for name |
| `MatchFiles.Stage1` | src/match_files.py:87-95 | a missing file is exactly a media file without candidates; a matched pair has its sole candidate; an ambiguous entry holds all of its two or more candidates, and every such file has one |
| `MatchFiles.Stage1Conserves` | src/match_files.py:87-95 | stage 1 puts every media file in exactly one list, copy for copy |
| `MatchFiles.Stage1Emptiness` | src/match_files.py:137-148 | stage 1 leaves nothing missing exactly when every media file has a candidate, and something ambiguous exactly when one has two or more |
| `MatchFiles.ClassifyMediaFiles` | src/match_files.py:46-95 | the stage-1 loop builds the three lists stage 1 specifies |
| `MatchFiles.CollectRecovered` | src/match_files.py:102-126 | the recovered pairs are, in order, the missing files stage 2 finds, each with what it found |
| `MatchFiles.RemoveAll` | src/match_files.py:131-132 | each recovered name is still present when removed, and the names left are the unrecovered ones |
| `MatchFiles.RecoverMissing` | src/match_files.py:97-132 | the old matches are kept as a prefix; the appended pairs are the recovered files with their recovered sidecars; missing keeps exactly the unrecovered files |
| `MatchFiles.StageTwoMatches` | src/match_files.py:128-130 | after stage 2 every match carries its final verdict |
| `MatchFiles.StageTwoMissing` | src/match_files.py:131-132 | after stage 2 every file still missing has the final verdict Missing |
| `MatchFiles.StageTwoConserves` | src/match_files.py:128-132 | moving recovered files from missing to matched keeps the media names of the three lists |
| `MatchFiles.StageTwoVerdicts` | src/match_files.py:97-134 | after stage 2 the lists still account for every media file, and matched and missing are final |
| `MatchFiles.SkipRecovery` | src/match_files.py:98 | with nothing missing, the stage-1 lists already have that property |
| `MatchFiles.CollectLivePhotos` | src/match_files.py:140-145 | pair `k` collected is the `k`-th ambiguous live-photo video with the first of its own candidates, and there is one pair per such video |
| `MatchFiles.FirstCandidatesSnoc` | src/match_files.py:145 | appending one entry and its first-candidate pair keeps pairs and entries in step |
| `MatchFiles.PresentDropsLive` | src/match_files.py:154-158 | blanking exactly the live entries and dropping the blanks leaves the other entries in order |
| `MatchFiles.DropRecovered` | src/match_files.py:152-158 | removing the recovered names leaves exactly the ambiguous entries that are not live-photo videos, in order |
| `MatchFiles.ResolveLivePhotos` | src/match_files.py:136-158 | the old matches are kept; appended pair `k` is the `k`-th live-photo video with its own first candidate; ambiguous keeps exactly the other entries, in order |
| `MatchFiles.StageThreeMatches` | src/match_files.py:143-149 | every match after stage 3 carries its final verdict |
| `MatchFiles.StageThreeConserves` | src/match_files.py:149-158 | moving the live-photo videos from ambiguous to matched keeps the media names of the three lists |
| `MatchFiles.StageThreeVerdicts` | src/match_files.py:136-158 | after stage 3 every media file is in exactly one list, with its final verdict |
| `MatchFiles.SkipLivePhotos` | src/match_files.py:137 | with nothing ambiguous, the lists after stage 2 are final |
| `MatchFiles.ReorderKeeps` | src/match_files.py:160-163 | permuting the lists keeps both the accounting and the verdicts |
| `MatchFiles.AccountedLength` | src/match_files.py:179-181 | lists accounting for every media file satisfy the asserted count `matched + missing + ambiguous == media` |
| `MatchFiles.SettledFinal` | src/match_files.py:87-158 | lists settled under the engine's own tests carry the verdicts `FinalVerdict` gives |
| `MatchFiles.SortLists` | src/match_files.py:160-181 | after the sorts the lists are sorted by media name and still classify every media file |
| `MatchFiles.RunStages` | src/match_files.py:29-158 | stages 1 to 3 fail exactly when stage 1 leaves nothing missing and something ambiguous; otherwise every media file ends in exactly one list with its final verdict |
| `MatchFiles.MatchFilesFromFileList` | src/match_files.py:16-182 | fails exactly when every media file has a candidate and one has several; otherwise returns sorted lists in which every media file appears once with its final verdict |
| `MatchFiles.UnboundLocalErrorInput` | src/match_files.py:137-148 | for `a.jpg`, `a.jpg.x.json`, `a.jpg.y.json` every media file has a candidate and one has two, so the engine fails |
| `MatchFiles.RunStagesCorrected` | src/match_files.py:97-158 | with `recovered` bound before stage 3, the stages never fail and classify every media file |
| `MatchFiles.MatchFilesCorrected` | src/match_files.py:16-182 | the corrected engine always returns sorted lists that classify every media file |
| `MatchFiles.DistinctCount` | src/match_files.py:186 | the set of pairs is never larger than the list, and is as large exactly when no pair is repeated |
| `MatchFiles.PairsToMapKeys` | src/match_files.py:187 | the dictionary's keys are exactly the media names of the pairs |
| `MatchFiles.PairsToMapLast` | src/match_files.py:187 | each key maps to the sidecar of the last pair with that media name |
| `MatchFiles.TurnTupleListIntoDict` | src/match_files.py:184-187 | fails exactly when some pair is repeated; otherwise every media name is a key, mapped as the comprehension maps it |
| `Strings.Lower` | src/match_files.py:34-36 | defines `str.lower` on ASCII: each character is lower-cased, the length is kept |
| `Strings.Contains` | src/util.py:12 | defines `item in mediaf`: some slice of the name equals the item |
| `Strings.EndsWith` | src/match_files.py:80 | defines `str.endswith` for one suffix |
| `Strings.LexLt` | src/match_files.py:84 | defines Python's string order: code point by code point, a proper prefix first |
| `CandidateRules.StripEdited` | src/match_files.py:52 | defines `re.sub(r'-edited$', '', basename, flags=re.IGNORECASE)`: a final `-edited` in any letter case is removed |
| `CandidateRules.NormalizedBase` | src/match_files.py:47-52 | defines the stage-1 basename: the `splitext` root without a final `-edited` |
| `CandidateRules.CounterPatternMatch` | src/match_files.py:62 | defines the counter pattern: the name starts with the stem and media extension, and the counter followed by `.json` occurs after them |
| `CandidateRules.StrictTail` | src/match_files.py:65 | defines `[^()]+\.json` at the start of the rest of the name |
| `CandidateRules.StrictPatternMatch` | src/match_files.py:65 | defines the strict pattern: basename, media extension, a dot, a parenthesis-free non-empty middle, `.json` |
| `CandidateRules.PrimaryTest` | src/match_files.py:58-70 | defines the test of the first scan: the counter pattern when the basename has a counter, else the strict pattern |
| `CandidateRules.FallbackPatternMatch` | src/match_files.py:74 | defines the loose pattern: the name starts with the basename and ends in `.json` |
| `CandidateRules.FallbackTest` | src/match_files.py:74-76 | defines the fallback scan's test: the loose pattern and no `(` in the name |
| `CandidateRules.HasTrailingQuirk` | src/match_files.py:80 | defines `basename.endswith(('_n-', '_n', '_'))` |
| `CandidateRules.TrailingCandidate` | src/match_files.py:81 | defines `basename.rstrip('_n-') + '.json'` |
| `CandidateRules.RawCandidates` | src/match_files.py:56-81 | defines `potential_jsons` before de-duplication: the first scan, the fallback scan when it applies, then the trailing-rule name |
| `CandidateRules.Candidates` | src/match_files.py:84 | defines `sorted(set(potential_jsons))` |
| `CandidateRules.IsCandidate` | src/match_files.py:56-84 | defines the candidate rules one by one, independently of the scans |
| `MatchFiles.IsJson` | src/match_files.py:34 | defines a sidecar: the lower-cased extension is `.json` |
| `MatchFiles.IsMedia` | src/match_files.py:35 | defines a media file: the lower-cased extension is one of the media extensions |
| `MatchFiles.IsSkipped` | src/match_files.py:36 | defines a skipped name: neither a media file nor a sidecar |
| `MatchFiles.IsLivePhoto` | src/match_files.py:141-143 | defines a live-photo video: the lower-cased extension is `.mp4` |
| `MatchFiles.Recover` | src/match_files.py:103-126 | defines the stage-2 body for one missing file: truncation, then the basename search, then the counter-stripped search |
| `MatchFiles.Decide` | src/match_files.py:87-145 | defines the verdict from the candidates, the recovery and the live-photo test |
| `MatchFiles.FinalVerdict` | src/match_files.py:87-158 | defines the verdict of one media file against the whole input, independently of the list-building loops |
| `MatchFiles.Present` | src/match_files.py:158 | defines `[x for x in ambiguous_files if x is not None]` |
| `MatchFiles.PairsToMap` | src/match_files.py:187 | defines the dict comprehension: pairs entered in order, a later pair overwriting an earlier one |
| `VerdictFacts.RecoverSteps` | src/match_files.py:103-126 | stage 2 tries truncation, then the first match containing the basename, then the first match containing the counter-stripped basename, and finds nothing exactly when all three fail |
| `VerdictFacts.RecoverOrigin` | src/match_files.py:103-126 | a recovered sidecar is a name of the inventory or the sidecar of a stage-1 match |
| `VerdictFacts.MatchedSidecarOrigin` | src/match_files.py:80-126 | a matched sidecar is in the inventory or is the trailing-character name of some media file |
| `VerdictFacts.TrailingQuirkOutsideInventory` | src/match_files.py:80-81 | a file whose basename ends in `_`, `_n` or `_n-` is matched with the made-up name even when the inventory is empty |
| `VerdictFacts.CandidatesSole` | src/match_files.py:84 | a file whose rules propose exactly one name has that name as its whole candidate list |
| `VerdictFacts.SoleCandidateMatched` | src/match_files.py:93-95 | such a file is matched with that name |
| `VerdictFacts.CandidatesLeast` | src/match_files.py:84 | the first candidate is the least name the rules propose |
| `VerdictFacts.LivePhotoTakesLeast` | src/match_files.py:143-145 | a live-photo video with any candidate is matched with its least candidate |
| `VerdictFacts.CandidatesTwo` | src/match_files.py:84-90 | a file has two or more candidates exactly when its rules propose two different names |
| `VerdictFacts.AmbiguousVerdict` | src/match_files.py:90-91 | a file stays ambiguous exactly when it is not a live-photo video and has two different candidates; its prospects are then all its candidates, ascending |
| `VerdictFacts.MissingVerdict` | src/match_files.py:87-88 | a file stays missing exactly when no rule proposes a name and stage 2 finds nothing |

## Left out

- Logging, the `tqdm` progress bars and `logging_redirect_tqdm` have no
  effect on the result and are not modelled. This covers the warnings at
  `src/match_files.py:170-177`, which also print the ambiguous list when
  files are missing.
- `find_sidecar_files` (`src/match_files.py:189-218`) is not modelled. It
  lists a directory, checks that files exist, and writes pickle and JSON
  fixtures; all of that is file I/O.
- The older engines in `src/main.py` and `main.py` are not part of this
  model. Neither are `src/exif_interface.py` (an external tool run as a
  subprocess), the web server under `src/web/`, `_format_list` (log text
  only), or the tests, which depend on pickled fixtures.
- `str.lower`, `re.IGNORECASE` and `\d` are modelled on ASCII letters and
  digits only. File names are assumed to hold no newline, so `$` in the
  patterns means the end of the name.
- Sorting.SortBy: does not state that the sort is stable, as Python's
  `list.sort` is. Stability only matters for repeated media names, and the
  verdicts and the accounting do not depend on it.
- MatchFiles.RemoveAll: states the names left as a multiset, not their order
  before the final sort. Its precondition, that every recovered name is still
  in the list, is what keeps Python's `list.remove` from raising
  `ValueError`; `RecoverMissing` establishes it.
- MatchFiles.RecoverMissing: states the new missing list as a multiset, for
  the same reason. The final sort fixes the order.
- Util.FindInMatched: returns `None` where the source returns `False`, and
  the found pair where the source returns it.
- The `filenames=0` default of the source is not modelled; the input is
  always a list of names.
- Determinism under reordering of the input is not stated. It does not hold,
  because stage 2 takes the first hit in list order.

## Findings

| source | as written | input that shows it | evidently intended | confidence | as-written member | corrected member |
|---|---|---|---|---|---|---|
| src/match_files.py:134-148 | `recovered` is bound only inside the stage-2 branch (`if len(missing_files) > 0`). Stage 3 appends to it and reads `len(recovered)`, so it raises `UnboundLocalError` whenever nothing is missing after stage 1 and something is ambiguous | `["a.jpg", "a.jpg.x.json", "a.jpg.y.json"]`: `a.jpg` has two strict-pattern candidates and nothing is missing | bind `recovered = []` before stage 3, so ambiguous files are resolved or kept and the three lists are returned | high (not executed) | `MatchFiles.MatchFilesFromFileList`, `MatchFiles.UnboundLocalErrorInput` | `MatchFiles.MatchFilesCorrected` |
