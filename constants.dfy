/** The fixed extension sets and cut-offs of the matching engine
    (src/__init__.py and src/match_files.py). */
module Constants {

  /** Media extensions, compared against the lower-cased extension. */
  const MediaExtensions: seq<string> :=
    [".jpg", ".jpeg", ".png", ".heic", ".heif",
     ".mp4", ".m4v", ".mov", ".avi", ".mkv",
     ".wmv", ".flv", ".f4v", ".f4p", ".f4a",
     ".f4b", ".webp", ".gif"]

  /** The video half of a live photo; its ambiguous entries are resolved. */
  const LivePhotoExtension: string := ".mp4"

  /** The sidecar extension. */
  const JsonExtension: string := ".json"

  /** Export tooling truncates long sidecar names to this many characters
      of the media basename; the engine tests basenames strictly longer. */
  const TruncationCutoff: nat := 46

  /** The suffix of an edited copy, matched case-insensitively. */
  const EditedSuffix: string := "-edited"
}
