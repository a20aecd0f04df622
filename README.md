# File_Organiser placement engine, in Dafny

This project models the part of File_Organiser that decides where each file of a
chosen folder goes, moves it there, and counts the moves. It covers two programs that
share this logic.

- `src/file_organiser.py` runs in two phases.
  - **Images by day.** It groups the dated `jpg`/`jpeg`/`png` files of the folder by
    capture day and files each day under `File_Triage/Images/<year>/<month>`. A day
    with at least `min_photos_per_day` images goes one level deeper, into `<DD>`.
  - **Other files.** It rescans the folder and sends every non-image file to the
    folder its lower-cased extension names. An unknown extension goes to
    `File_Triage/Autres`.
  - It counts each successful move, under the name of the folder credited.
- `main.py` is the older single-file version.
  - It sends every file by its extension exactly as written.
  - It counts every file it tried, whether the move succeeded or not.

## Model

### The world

- **Paths** are sequences of segments (`Paths`). `stem` and `suffix` follow `pathlib`.
- **The disk** is the class `FileSystem.Disk`:
  - the set of regular files and the set of folders, which its methods update;
  - `moveSucceeds`, an oracle fixed for the run, saying whether `shutil.move` of one
    file to one target returns normally.
- **`iterdir`** returns every entry of a folder once, in an order the model leaves open.
- **Capture dates** come from `DateUtils.DateSource`. It holds the EXIF read of each
  file, its creation time, and the `strptime` parser, as functions. Asking twice about
  one file therefore gives one answer.
- **Statistics** are the class `Statistics.Stats`, a `defaultdict(int)`. It keeps its
  keys in insertion order, as `display_summary` prints them.

### The record of moves

Each run keeps a ghost trace of `FileOps.MoveEvent`. Each event records:
- the file;
- its collision-free target;
- whether the move succeeded;
- the statistics key credited.

The runs prove the following about their traces:
- **`Accounted`.** The files afterwards are the files before, minus the moved
  sources, plus the moved targets. No target overwrote anything.
- **Each file once.** Every file is tried at most once.
- **Each file placed by its rule:**
  - `PlacedByDay` for images;
  - `PlacedByExtension` for other files in `src/file_organiser.py`;
  - `PlacedExactly` for files in `main.py`.
- **The counts agree with the trace:**
  - `src/file_organiser.py`: the statistics equal the successful moves, per key and in total.
  - `main.py`: they equal the attempts.

`main.py`'s own copies of `scan_directory_for_files` (main.py:51-57) and
`resolve_file_conflict` (main.py:65-74) are the same code as in
`src/utils/file_ops.py`. They are modelled once, by `FileSystem.Disk.ScanFiles` and
`FileOps.ResolveFileConflict`.

| member | source | states |
|---|---|---|
| Text.PadZerosRoundTrip | src/utils/date_utils.py:7-8 | reading the zero-padded field `%m`/`%d` back gives the number, and the field is exactly `w` wide when the number has at most `w` digits |
| Text.ParseNatToString | src/utils/categorization.py:87 | `int(str(n)) == n` for the year folder name |
| Text.NatToStringInjective | src/utils/categorization.py:87 | two different years never share a year folder name |
| Paths.StemSuffixSplit | src/utils/file_ops.py:46-48 | `stem + suffix == name`; a non-empty suffix is a dot and then at least one character, none of them a dot; a name with a suffix has a non-empty stem |
| Paths.RenamedKeepsSuffix | src/utils/file_ops.py:46-48 | the renamed candidate `f"{stem}_{k}{suffix}"` has the original suffix, and its stem is `stem_k` |
| Paths.SplitAtSuffix | src/utils/file_ops.py:48 | a non-empty head followed by a suffix-shaped tail has exactly that head as stem and that tail as suffix |
| Paths.RenamedSuffixEndsInDigit | src/utils/file_ops.py:46-48 | a name without a suffix gains, after renaming, either no suffix or one ending in a digit |
| Paths.LowerExtension | src/utils/categorization.py:68 | lower-casing the name and then taking `suffix[1:]` equals taking `suffix[1:]` and lower-casing it |
| DateUtils.FormatDateRoundTrip | src/utils/date_utils.py:7-8 | `format_date` is ten characters; splitting it on `_` gives three digit strings that read back as year, month and day |
| DateUtils.FormatDateInjective | src/utils/date_utils.py:7-8 | two timestamps with the same formatted date fall on the same calendar day |
| DateUtils.MonthNameInjective | src/utils/categorization.py:88 | different months have different `%B` names |
| DateUtils.GetDateTaken | src/utils/date_utils.py:33-55 | an unreadable image gives `None`; without tag 306 the result is the creation time; any other result is the parse of the string in tag 306 |
| DateUtils.TaggedIgnoresCtime | src/utils/date_utils.py:44-55 | once tag 306 is present, the creation time is never consulted: the result is the tag's parse, and a tag that does not parse gives `None` |
| FileSystem.Disk.MakeDirs | src/utils/file_ops.py:23-30 | `mkdir(parents=True, exist_ok=True)` fails exactly when the path or an ancestor is a regular file; otherwise every folder on the path exists afterwards and nothing else changes |
| FileSystem.Disk.Move | src/utils/file_ops.py:65 | `shutil.move` succeeds exactly when the source exists and the oracle allows it; on success the file is at the target and no longer at the source, otherwise nothing changes |
| FileSystem.Disk.IterDir | src/utils/categorization.py:48 | the listing holds every entry of the folder once, and answers `is_file()` truly |
| FileSystem.Disk.ScanFiles | src/utils/file_ops.py:7-21 | the result lists each regular file of the folder exactly once, and nothing else |
| Statistics.Stats.constructor | src/file_organiser.py:39 | a fresh `defaultdict(int)` has no keys |
| Statistics.Stats.Increment | src/file_organiser.py:56 | `stats[key] += 1`: that key gains one, every other key keeps its count, a new key is listed last, and the sum grows by one |
| Statistics.AddOneFacts | src/file_organiser.py:56 | after adding one to a key, the keys are still listed once each, only that key's count grows by one, and the sum grows by one |
| Statistics.SumOverUpdate | main.py:99 | changing one listed key's count changes `sum(stats.values())` by the same amount |
| Statistics.SumOverAppend | main.py:99 | a new key counted once adds one to `sum(stats.values())` |
| FileOps.ResolveFileConflict | src/utils/file_ops.py:32-51 | the result does not exist and lies in the destination folder; it is `folder/name` when that is free; it is the first free name in the order `name`, `stem_1.suffix`, `stem_2.suffix`, ...; the suffix is kept; the existing paths are only read, and the loop terminates |
| FileOps.CandidatesDistinct | src/utils/file_ops.py:44-49 | the probe never tries one path twice, so it leaves the finite set of existing paths |
| FileOps.FirstFreeUnique | src/utils/file_ops.py:44-49 | the existing paths determine the probe's answer |
| FileOps.FirstFreeNamedAfter | src/utils/file_ops.py:43-48 | the probe's answer lies in the folder and is named after the file: its own name or `stem_k.suffix` |
| FileOps.NextPlacementDiffers | src/utils/file_ops.py:43-49 | after one file has taken the probe's answer, a second file of the same name gets a later candidate, never the same path |
| FileOps.MoveFile | src/utils/file_ops.py:53-65 | it makes the parent folder and then moves; it fails, leaving the files alone, when either step raises; on success the file is at the target |
| FileOps.AccountedStep | src/utils/file_ops.py:53-65 | one more attempted move, of a file still in place to a free target, keeps the account of the files; the files still waiting stay in place |
| FileOps.PlaceFile | src/utils/categorization.py:99-106 | resolve, move, and count on success: the target is the first free name in the folder; a successful move adds one to `stats[key]` only, a failed one changes neither the files nor the statistics; the account of files and counts carries over to the longer trace; the folders gain the folder's path exactly when no regular file lies on it, and nothing else |
| FileOps.FoldersOfHas | src/utils/file_ops.py:64 | every attempted move asks for every folder on the path of its target's parent |
| FileOps.FoldersMadeWithin | src/utils/file_ops.py:64 | the folders a run of moves makes are among the folders it asks for |
| FileOps.UnblockedAt | src/utils/file_ops.py:64 | in a run whose attempts were each made while no regular file lay on the path of the target's folder, the `t`-th attempt found that path free in the files left by the attempts before it |
| FileOps.FoldersOfInto | src/utils/categorization.py:96-106 | attempts that all go into one folder ask for exactly that folder's path |
| FileOps.MovedCountOneKey | src/utils/categorization.py:104 | when every attempt is credited to one key, that key counts every successful move and no other key counts any |
| FileOps.MovedCountForNone | src/file_organiser.py:56 | a key that no attempt is credited to counts no move |
| Categorization.IsImageIgnoresCase | src/utils/categorization.py:17 | whether a file is an image does not depend on the letter case of its name |
| Categorization.CandidateKeepsKind | src/utils/file_ops.py:46-48 | every name the probe tries is an image exactly when the original name is one |
| Categorization.FirstFreeKeepsKind | src/utils/categorization.py:100 | the collision-free target of an image is an image, and that of a non-image is not |
| Categorization.CountImageInList | src/utils/categorization.py:9-17 | the count never exceeds the length of the list |
| Categorization.CountImageInListExtremes | src/utils/categorization.py:17 | the count is the list's length exactly when every path is an image, and 0 exactly when none is |
| Categorization.CountImageInListCard | src/utils/categorization.py:17 | on a list without repetitions, the count is the number of image paths in it |
| Categorization.CountImageInListAppend | src/utils/categorization.py:17 | the count of a concatenation is the sum of the counts |
| Categorization.CountImageUpperCase | src/utils/categorization.py:17 | `IMG.JPG` counts as an image and `notes.txt` does not |
| Categorization.CountImageInDirectory | src/utils/categorization.py:19-44 | 0 for a missing folder; otherwise the number of the folder's regular image files that have a capture date matching the target by day or by month; each entry of the listing counts exactly when it is a regular image with a capture date that matches in the given mode |
| Categorization.OtherModeCountsNothing | src/utils/categorization.py:40-43 | a mode other than `"day"` and `"month"` counts nothing |
| Categorization.DayCountAtMostMonthCount | src/utils/categorization.py:40-43 | the images of the target's day are among those of its month, so the day count never exceeds the month count |
| Categorization.GroupImageByDay | src/utils/categorization.py:46-53 | the loop builds the reference grouping of the listing: days in first-seen order, each bucket's files in listing order |
| Categorization.GroupSpecIsMatching | src/utils/categorization.py:47-53 | each day is listed once and has a bucket; a bucket holds, in listing order, the entries grouped under its day and is never empty; a day with no such entry has no bucket |
| Categorization.MatchingMembers | src/utils/categorization.py:48-52 | a path is in a day's bucket exactly when some entry with that path is a regular image taken that day |
| Categorization.MatchingDistinct | src/utils/categorization.py:48-52 | no file appears twice in a bucket |
| Categorization.GroupingOfListing | src/utils/categorization.py:46-53 | on a listing of the folder, the buckets are the folder's dated images by capture day, each file once and in exactly one bucket; undated images and non-images are in none |
| Categorization.MatchingIsDayBucket | src/utils/categorization.py:48-52 | a day's bucket holds each image of the folder taken that day exactly once, and nothing else |
| Categorization.LaterOfListing | src/utils/categorization.py:46-53 | the buckets together hold all the dated images of the folder |
| Categorization.BucketOfDay | src/utils/categorization.py:84-85 | `files[0]` exists and its re-read date falls on the bucket's own day; the bucket's size is the number of images of that day |
| Categorization.LaterSplit | src/utils/categorization.py:84 | the buckets of different days are disjoint: the current day's files and the later days' files split the files still to come |
| Categorization.PlaceBucket | src/utils/categorization.py:99-106 | every file of the bucket is tried once into the day's folder, credited to the given key, each while no regular file lay on the day folder's path; the later days' files stay in place; the statistics grow by the successful moves; no folder is made, since the day's folder already exists |
| Categorization.BucketInvStep | src/utils/categorization.py:99-106 | one file of the bucket, tried as `PlaceFile` does, keeps the inner loop's invariant |
| Categorization.GetDestinationIgnoresCase | src/utils/categorization.py:67-73 | two files whose names differ only in letter case get the same folder |
| Categorization.ImagesBase | src/utils/categorization.py:86 | the image base folder's name is `"Images"`, the key that line 104 credits |
| Categorization.DayFoldersDistinct | src/utils/categorization.py:86-94 | two different days that both get a day folder get different folders |
| Categorization.MonthFolderShared | src/utils/categorization.py:86-94 | below the threshold, the days of one month share the month folder, and any day folder lies directly inside it |
| Categorization.BucketPlacedByDay | src/utils/categorization.py:99-104 | the moves of a day's bucket into that day's folder are placements by day |
| Categorization.DayFolder | src/utils/categorization.py:85-94 | the folder computed from the re-read date of `files[0]` and the bucket key is `Images/<year>/<month>`, and below it `<DD>` when the bucket reaches the threshold |
| Categorization.PlaceDay | src/utils/categorization.py:84-106 | one day: its folder is made exactly when no regular file lies on the folder's path; if it is not made, nothing else changes; otherwise every file of the day is tried, under its own name or `stem_k.suffix`, and the image phase moves on to the next day; when the folder is made, the folders gain exactly the folders on its path; every attempt so far was made while no regular file lay on the path of its folder |
| Categorization.FillDay | src/utils/categorization.py:98-106 | once the folder exists, the day's files are tried, and the invariant of the image phase holds for the next day, each file tried while its folder's path was free of regular files; no folder is made, and the folders asked for by the phase grow by the day folder's path |
| Categorization.ImagePhaseStep | src/utils/categorization.py:84-106 | placing the current day's bucket into its folder keeps the invariant of the image phase |
| Categorization.ImagePhaseOutcome | src/utils/categorization.py:84-106 | when the phase stops, the files tried are dated images of the folder, placed by day; if every day was reached, they are all of them |
| Categorization.OrganizeImagesByDay | src/utils/categorization.py:75-106 | every dated image of the folder is tried once into its day's folder, under its own name or `stem_k.suffix`, at a moment when no regular file lay on that folder's path, and an undated image or a non-image never is; the files are accounted for; `stats` grows by the successful moves, all under `"Images"`; the phase stops early only when some day with images has a regular file on its folder's path; the folders afterwards are exactly those before plus the folders on the paths of the folders the files went to; when every day was reached, the folder of every day with images exists |
| Categorization.DaysReached | src/utils/categorization.py:84-106 | once every dated image was tried by day, every day with images had its folder asked for |
| Categorization.BlockerNotImage | src/utils/categorization.py:86-96 | a path on the way to a day's folder that is not on the way to the log folder is never an image, so the image phase never moves it |
| Categorization.DayFolderPrefix | src/utils/categorization.py:86-94 | the first segments of a day's folder either stop at `File_Triage` or end in `Images`, a year, a month name or a two-digit day, none of them an image's name |
| Categorization.AllDaysReached | src/utils/categorization.py:84-106 | when the image phase reached every day, each day with images has all the folders on its folder's path |
| FileOrganiser.OtherKey | src/file_organiser.py:28-37 | a non-image file is credited to `Documents`, `Vidéos`, `Executable` or `Autres`, never to `Images` |
| FileOrganiser.GetDestinationKnown | src/utils/categorization.py:67-73 | `report.PDF` goes to `File_Triage/Documents` and `clip.mkv` to `File_Triage/Vidéos` |
| FileOrganiser.GetDestinationRoutes | src/file_organiser.py:28-37 | for every file, read backwards: it goes to `Documents` exactly for `pdf`/`doc`, to `Images` exactly when it is an image, to `Vidéos` exactly for `mp4`/`mkv`, to `Executable` exactly for `exe`, and to `Autres` exactly when the lower-cased extension is not in the table |
| FileOrganiser.GetDestinationUnknown | src/utils/categorization.py:67-73 | `notes.txt` and `.exe`, whose only dot is its first character, go to `File_Triage/Autres` |
| FileOrganiser.PlaceOther | src/file_organiser.py:49-58 | an image is skipped; any other file is tried once, into the folder of its extension, credited to that folder's name; the folders gain the category folder's path exactly when no regular file lies on it at that point, and nothing else |
| FileOrganiser.OtherInvStep | src/file_organiser.py:50-58 | one non-image file, tried as `PlaceFile` does, keeps the second loop's invariant |
| FileOrganiser.PlaceOthers | src/file_organiser.py:47-58 | every regular non-image file of the folder is tried once, placed by its extension under its own name or `stem_k.suffix`; `stats` grows by the successful moves, per key and in total; `move_file` makes each tried file's category folder (src/utils/file_ops.py:64), so the folders afterwards are exactly those before plus the path of each tried file's folder that no regular file blocked at that point |
| FileOrganiser.PlacedByDayImagesOnly | src/utils/categorization.py:104 | the image phase moves only images to image paths, credited to `"Images"` |
| FileOrganiser.ImagePhaseKeepsOthers | src/file_organiser.py:45-48 | after the image phase, the folder's non-image files are the same as before, so the rescan finds them all |
| FileOrganiser.Run | src/file_organiser.py:20-60 | `None` ends the run with no statistics and nothing touched; otherwise the run keeps every promise of `RunOn`, and it ends with a summary exactly when, at its start, no regular file lies on the path of the log folder or of the folder of any day with images; any such file aborts it; the folders made are exactly the log folder, the day folders and the category folders, and the counts equal the successful moves |
| FileOrganiser.RunOn | src/file_organiser.py:39-60 | a regular file on the log folder's path (line 41) aborts the run with nothing touched; otherwise the log folder is made and the folders afterwards are exactly those before, plus the log folder's path, the paths of the day folders of the images tried, and the category folders made in the second phase; each image was tried while no regular file lay on its day folder's path; an abort leaves the second phase out and happens only when the log folder or some day with images has a regular file on its path; a summary follows both phases in full, every day with images has its folder, and the total is the number of successful moves, with images under `"Images"` and other files under their folder's name |
| FileOrganiser.RanOnLogBlocked | src/file_organiser.py:41 | a regular file on the log folder's path aborts the run before anything changes |
| FileOrganiser.RanOnImagesStopped | src/utils/categorization.py:96 | a day folder that cannot be made aborts the run after the image phase, with the second phase left out |
| FileOrganiser.StoppedStops | src/utils/categorization.py:96 | after such an abort the folders are those before plus the log folder's and the day folders' paths |
| FileOrganiser.RanOnFinished | src/file_organiser.py:45-60 | both phases run in full: the summary, the counts and every folder made |
| FileOrganiser.SummaryIffUnblocked | src/file_organiser.py:41-45 | a run that keeps `RunOn`'s promises ends with a summary exactly when, at its start, no regular file lies on the path of the log folder or of the folder of any day with images |
| FileOrganiser.DayFreeAtStart | src/utils/categorization.py:96 | after an image phase that tried every dated image, no path on the way to the folder of a day with images held a regular file at the start |
| FileOrganiser.DayBlockedAtStart | src/utils/categorization.py:96 | a day folder blocked when the image phase stopped was already blocked at the start, the log folder being free |
| FileOrganiser.ImageTargetsDeep | src/utils/categorization.py:99-102 | every target the image phase filled is an image lying deeper than `File_Triage`, so never on the log folder's path |
| FileOrganiser.FinishRun | src/file_organiser.py:47-60 | the second phase and `display_summary`: the total is the successful image moves plus the successful other moves; the folders grow only by the category folders of the files tried |
| MainScript.ExactMissesOnlyCase | main.py:80-84 | for every file, `main.py`'s folder differs from the lower-casing one exactly when the extension as written is not a key but its lower-case form is |
| MainScript.ExactAgreesOnLowerCase | main.py:80-84 | on an extension already in lower case, the two `get_destination`s agree |
| MainScript.ExactIsCaseSensitive | main.py:80-84 | `x.pdf` goes to `File_Triage/Documents` and `X.PDF` to `File_Triage/Autres`, where the lower-casing version sends it to `Documents` |
| MainScript.MoveFileReporting | main.py:88-95 | a parent folder that cannot be made raises out of `move_file`; otherwise the result is true exactly when the move succeeded, and only then does the file move |
| MainScript.AttemptsAddUp | main.py:123-127 | the successful moves credited to a key are at most its attempts, which are at most all attempts |
| MainScript.MoveAndCount | main.py:124-127 | one file: unless making its folder raised, `stats[safe_path.parent.name]` grows by one whether or not the move succeeded; the folders gain the folder's path unless making it raised |
| MainScript.PlaceCounted | main.py:123-127 | one turn of the loop: it raises exactly when a regular file lies on the path of the file's folder; otherwise the file is tried once, by its exact extension, under its own name or `stem_k.suffix`, and every key's count follows its attempts; unless it raised, the folders gain exactly the path of the file's folder, and every attempt was made while its folder's path was free of regular files |
| MainScript.ScriptStep | main.py:123-127 | trying the next scanned file keeps the loop's invariant and adds one attempt to its key |
| MainScript.RunScript | main.py:105-128 | `None` raises at `display_summary` with nothing touched; on a folder, each regular file is tried at most once, by its exact extension, under its own name or `stem_k.suffix`, and the folders made are exactly those on the paths of the folders tried; each file was tried while no regular file lay on the path of its folder; the run raises only at a file not yet tried whose folder has a regular file on its path; when the summary is shown, every regular file was tried once, every file's folder exists, and the total equals the number of files scanned, each key counting its attempts, moved or not |
| MainScript.FilesReached | main.py:89 | every file tried had all the folders on its folder's path made |
| MainScript.ScriptRaised | main.py:89 | raising at a scanned file leaves an untried file of the folder whose folder is blocked, and the folders made so far are those of the files tried |
| MainScript.ScriptUnblockedAt | main.py:89 | no file was tried while a regular file lay on the path of its folder, given the files at that point of the run |
| MainScript.ScriptShown | main.py:123-128 | after the loop every regular file was tried once, the total is the number of files, each key counts its attempts, and every file's folder exists |

### Behaviour worth noting

The model follows the code on each of these points.

- **Statistics key of the image phase.** Line 104 of `src/utils/categorization.py`
  credits `base_folder.name`, which is `"Images"` for every image. It does not credit
  the day or month leaf folder.
- **Undated images.** An undated image is not filed by extension in the second phase.
  Line 50 of `src/file_organiser.py` skips every `jpg`/`jpeg`/`png`, so such an image
  stays where it was.
- **`main.py` counts attempts.** It ignores `move_file`'s result and counts every file
  tried (lines 126-127), so its total is the number of files scanned.
- **`main.py` and `None`.** When the user leaves, `display_summary(stats)` at line 128
  runs with `stats` never assigned and raises. `RunScript` ends in `Raised`.
- **`main.py` and unreachable folders.** Its `move_file` makes the parent folder
  outside its `try` (line 89). A folder that cannot be made therefore raises out of
  `main`.
- **Stops in `main.py` depend on order.** A move can take away a regular file that lies
  on the path of a later file's folder, so whether `main.py` raises depends on the order
  of the listing. `ScriptRan` therefore states, for each attempt, that its folder's path
  was free at that point of the run. In `src/file_organiser.py` the image phase moves
  only images, and a file on a day folder's path is never one, so there a summary
  depends on the starting files alone (`SummaryIffUnblocked`).
- **No category rules.** No source file implements category rules by keyword, so
  extension and capture date are the only rules modelled.

## Left out

- **Prompts and console output.** The prompts of `ui_utils` and the welcome message
  are not modelled. The chosen folder (`Option<Path>`) and the threshold are
  parameters. The `print` calls, the console reconfiguration and the printing in
  `display_summary` are not modelled either. Its total and its per-key counts, in
  insertion order, are kept.
- **Prompt-enforced inputs.** The threshold of at least 2 and the folder lying under
  home are not required: every contract holds for any threshold and any folder.
- **Logging** (`src/utils/logging_utils.py`): only the making of the log folder is
  kept, because an exception there ends the run. The log file and its messages are
  not modelled.
- **Unused helpers.** `creating_back_up` and `get_rules` are never called by either
  run. `MIN_PHOTO_PER_DAY` is never read. `tempCodeRunnerFile.py` is a scratch script.
  None of them is modelled.
- **Date extraction.** PIL, EXIF decoding, `os.path.getctime`, `strptime` and
  `datetime.fromtimestamp` are inputs (`DateUtils.DateSource`). Time zones and
  microseconds are not modelled. Neither is the error message `get_date_taken` prints.
- **Lower-casing.** `Text.Lower` lower-cases ASCII letters only. `str.lower()` on
  other letters (say `.JPĞ`) is not modelled.
- **Year formatting.** `DateUtils.FormatDate` pads `%Y` to four digits. Below year
  1000 the C library's output differs between platforms, and that difference is not
  modelled.
- **Suffixes.** `Paths.Suffix` follows `pathlib` up to Python 3.13, where a name
  ending in a dot has no suffix. The rule of Python 3.14 is not modelled.
- **Month names.** `DateUtils.MonthName` gives the English `%B` names of the "C"
  locale. Other `LC_TIME` locales are not modelled.
- **File-system details.** The file system is case-sensitive in the model. Windows'
  case-insensitive `exists()`, permissions, symbolic links and other processes
  changing the folder are not modelled.
- **Moves onto folders.** Moving onto an existing folder, which `shutil.move` would
  treat as moving into it, is not modelled. `FileSystem.Disk.Move` requires a target
  that is not a folder, and `resolve_file_conflict` only returns paths that do not exist.
- **Other exceptions.** Exceptions raised by `iterdir` itself (a missing or unreadable
  folder during a run) are not modelled.
- Categorization.CountImageInDirectory: requires that the folder is not a regular file.
  For a regular file, `exists()` holds and `iterdir()` raises `NotADirectoryError`,
  which the code does not catch.
- FileSystem.Disk.IterDir: the order of the listing is left open, so the order of
  the days and of the attempts is not fixed by any contract.
- Categorization.OrganizeImagesByDay: states which files were tried and where they
  went, but not in which order.
