/**
 * `src/file_organiser.py`'s `main`: once a folder is chosen, make the log folder, file
 * the dated images by day, then scan the folder again and send every other non-image
 * file to the folder its extension names, counting each successful move under the name
 * of the folder it went to. The prompts, the log file and the printing are not modelled.
 */
module FileOrganiser {
  import opened Wrappers
  import opened Text
  import opened Paths
  import opened DateUtils
  import opened FileSystem
  import opened Statistics
  import opened FileOps
  import opened Categorization

  /** `extension_to_folder`: lower-case extension to folder, relative to home. */
  const ExtensionToFolder: map<string, Path> := map[
    "pdf" := ["File_Triage", "Documents"],
    "doc" := ["File_Triage", "Documents"],
    "jpeg" := ["File_Triage", "Images"],
    "jpg" := ["File_Triage", "Images"],
    "png" := ["File_Triage", "Images"],
    "mp4" := ["File_Triage", "Vidéos"],
    "mkv" := ["File_Triage", "Vidéos"],
    "exe" := ["File_Triage", "Executable"]
  ]

  /** `Path.home() / "File_Triage" / "Logs"`. */
  function LogFolder(home: Path): Path {
    home + ["File_Triage", "Logs"]
  }

  /** The statistics key a non-image file is credited to: the name of its destination folder. */
  function OtherKey(home: Path, p: Path): (key: string)
    requires !IsImage(p)
    ensures key in {"Documents", "Vidéos", "Executable", "Autres"}
  {
    Name(GetDestination(home, p, ExtensionToFolder))
  }

  /**
   * `extension_to_folder` read backwards, for every file: the folder a file is sent to
   * names exactly the extensions that lead there, and `Autres` takes all the others.
   */
  lemma GetDestinationRoutes(home: Path, p: Path)
    ensures var ext := Lower(Extension(Name(p)));
            var dest := GetDestination(home, p, ExtensionToFolder);
            && (dest == home + ["File_Triage", "Documents"] <==> ext == "pdf" || ext == "doc")
            && (dest == home + ["File_Triage", "Images"] <==> IsImage(p))
            && (dest == home + ["File_Triage", "Vidéos"] <==> ext == "mp4" || ext == "mkv")
            && (dest == home + ["File_Triage", "Executable"] <==> ext == "exe")
            && (dest == home + OtherFolder <==> ext !in ExtensionToFolder)
  {
    var ext := Lower(Extension(Name(p)));
    var tail := if ext in ExtensionToFolder then ExtensionToFolder[ext] else OtherFolder;
    assert GetDestination(home, p, ExtensionToFolder) == home + tail;
    AppendCancels(home, tail, ["File_Triage", "Documents"]);
    AppendCancels(home, tail, ["File_Triage", "Images"]);
    AppendCancels(home, tail, ["File_Triage", "Vidéos"]);
    AppendCancels(home, tail, ["File_Triage", "Executable"]);
    AppendCancels(home, tail, OtherFolder);
    TableRoutes(ext, tail);
  }

  /** The folder the table gives an extension, read backwards. */
  lemma TableRoutes(ext: string, tail: Path)
    requires tail == if ext in ExtensionToFolder then ExtensionToFolder[ext] else OtherFolder
    ensures tail == ["File_Triage", "Documents"] <==> ext == "pdf" || ext == "doc"
    ensures tail == ["File_Triage", "Images"] <==> ext in ImageExtensions
    ensures tail == ["File_Triage", "Vidéos"] <==> ext == "mp4" || ext == "mkv"
    ensures tail == ["File_Triage", "Executable"] <==> ext == "exe"
    ensures tail == OtherFolder <==> ext !in ExtensionToFolder
  {
    assert tail[1] == "Documents" <==> ext == "pdf" || ext == "doc";
    assert tail[1] == "Images" <==> ext in ImageExtensions;
    assert tail[1] == "Vidéos" <==> ext == "mp4" || ext == "mkv";
    assert tail[1] == "Executable" <==> ext == "exe";
    assert tail[1] == "Autres" <==> ext !in ExtensionToFolder;
  }

  /** Paths under the same folder are equal exactly when their relative parts are. */
  lemma AppendCancels(home: Path, tail: Path, rel: Path)
    ensures home + tail == home + rel <==> tail == rel
  {
    if home + tail == home + rel {
      assert tail == (home + tail)[|home|..];
    }
  }

  /** A known extension is found in either case. */
  lemma GetDestinationKnown(home: Path, dir: Path)
    ensures GetDestination(home, dir + ["report.PDF"], ExtensionToFolder) == home + ["File_Triage", "Documents"]
    ensures GetDestination(home, dir + ["clip.mkv"], ExtensionToFolder) == home + ["File_Triage", "Vidéos"]
  {
    assert Name(dir + ["report.PDF"]) == "report.PDF";
    assert Name(dir + ["clip.mkv"]) == "clip.mkv";
    assert LastDot("report.PDF") == 6 by {
      LastDotIs("report.PDF", 6);
    }
    assert Extension("report.PDF") == "PDF" && Lower("PDF") == "pdf";
    assert LastDot("clip.mkv") == 4 by {
      LastDotIs("clip.mkv", 4);
    }
    assert Extension("clip.mkv") == "mkv" && Lower("mkv") == "mkv";
  }

  /** An unknown extension, and a name whose only dot comes first, go to `Autres`. */
  lemma GetDestinationUnknown(home: Path, dir: Path)
    ensures GetDestination(home, dir + ["notes.txt"], ExtensionToFolder) == home + ["File_Triage", "Autres"]
    ensures GetDestination(home, dir + [".exe"], ExtensionToFolder) == home + ["File_Triage", "Autres"]
  {
    assert Name(dir + ["notes.txt"]) == "notes.txt";
    assert Name(dir + [".exe"]) == ".exe";
    assert LastDot("notes.txt") == 5 by {
      LastDotIs("notes.txt", 5);
    }
    assert Extension("notes.txt") == "txt" && Lower("txt") == "txt";
    assert LastDot(".exe") == 0 by {
      LastDotIs(".exe", 0);
    }
  }

  /** The regular non-image files of `dir`. */
  ghost function OtherFiles(files: set<Path>, dir: Path): set<Path> {
    set p | p in files && IsChildOf(p, dir) && !IsImage(p)
  }

  /** The non-image paths of a list. */
  ghost function OthersIn(s: seq<Path>): set<Path> {
    set p | p in s && !IsImage(p)
  }

  /**
   * What the second phase did with one file: it was not an image, it went into the
   * folder of its extension under its own name or `stem_k.suffix`, and it was credited
   * to that folder's name.
   */
  ghost predicate PlacedByExtension(home: Path, e: MoveEvent) {
    && !IsImage(e.src)
    && Parent(e.dest) == GetDestination(home, e.src, ExtensionToFolder)
    && NamedAfter(e.src, e.dest)
    && e.bucket == OtherKey(home, e.src)
  }

  /**
   * The state of the second loop before the `i`-th scanned file: the files not yet
   * reached are in place, each non-image file passed so far was tried once, and placed
   * by its extension.
   */
  ghost predicate OtherPhaseInv(files: set<Path>, files0: set<Path>, found: seq<Path>, i: nat, home: Path,
                                trace: seq<MoveEvent>) {
    && Distinct(found) && i <= |found|
    && Accounted(files0, files, trace)
    && Elements(found[i..]) <= files && Elements(found[i..]) !! MovedTargets(trace)
    && SourcesDistinct(trace) && Sources(trace) == OthersIn(found[..i])
    && forall t :: 0 <= t < |trace| ==> PlacedByExtension(home, trace[t])
  }

  /** Passing the `i`-th scanned file: it leaves the files to come, and joins the passed ones. */
  lemma FoundStep(found: seq<Path>, i: nat)
    requires Distinct(found) && i < |found|
    ensures found[i] in Elements(found[i..])
    ensures Elements(found[i + 1..]) == Elements(found[i..]) - {found[i]}
    ensures found[i] !in found[..i] && found[i] !in OthersIn(found[..i])
    ensures OthersIn(found[..i + 1]) == OthersIn(found[..i]) + (if IsImage(found[i]) then {} else {found[i]})
  {
    assert found[i..] == [found[i]] + found[i + 1..];
    assert found[..i + 1] == found[..i] + [found[i]];
    assert found[i] !in found[i + 1..] && found[i] !in found[..i];
  }

  /**
   * One turn of the second loop, for the `i`-th scanned file: an image is skipped; any
   * other file goes through `PlaceFile` into the folder of its extension, credited to
   * that folder's name.
   */
  method PlaceOther(disk: Disk, stats: Stats, found: seq<Path>, i: nat, home: Path,
                    ghost files0: set<Path>, ghost folders0: set<Path>, ghost trace0: seq<MoveEvent>)
    returns (ghost trace: seq<MoveEvent>)
    requires disk.Valid() && stats.Valid()
    requires i < |found| && OtherPhaseInv(disk.files, files0, found, i, home, trace0)
    requires disk.folders == folders0 + FoldersMade(files0, trace0)
    modifies disk, stats
    ensures disk.Valid() && stats.Valid()
    ensures OtherPhaseInv(disk.files, files0, found, i + 1, home, trace)
    ensures stats.Total() + MovedCount(trace0) == old(stats.Total()) + MovedCount(trace)
    ensures forall k :: stats.Get(k) + MovedCountFor(trace0, k) == old(stats.Get(k)) + MovedCountFor(trace, k)
    ensures disk.folders == folders0 + FoldersMade(files0, trace)
  {
    var src := found[i];
    FoundStep(found, i);
    trace := trace0;
    if !IsImage(src) {
      var folder := GetDestination(home, src, ExtensionToFolder);
      ghost var existing := disk.files + disk.folders;
      ghost var folders1 := disk.folders;
      var e := PlaceFile(disk, stats, src, folder, Name(folder), files0, trace0, Elements(found[i..]));
      OtherInvStep(disk.files, files0, existing, found, i, home, trace0, e);
      FoldersAppend(files0, trace0, e);
      UnionShift(folders0, folders1, disk.folders, FoldersMade(files0, trace0), FoldersMade(files0, trace0 + [e]),
                 if Ancestry(folder) !! FilesAfter(files0, trace0) then Ancestry(folder) else {});
      trace := trace0 + [e];
    }
  }

  /** Trying the `i`-th scanned file, a non-image, as `PlaceFile` does, keeps the loop's invariant. */
  lemma OtherInvStep(files: set<Path>, files0: set<Path>, existing: set<Path>, found: seq<Path>, i: nat, home: Path,
                     trace0: seq<MoveEvent>, e: MoveEvent)
    requires i < |found| && Distinct(found) && SourcesDistinct(trace0) && Sources(trace0) == OthersIn(found[..i])
    requires forall t :: 0 <= t < |trace0| ==> PlacedByExtension(home, trace0[t])
    requires e.src == found[i] && !IsImage(found[i])
    requires IsFirstFree(existing, GetDestination(home, found[i], ExtensionToFolder), Name(found[i]), e.dest)
    requires e.bucket == Name(GetDestination(home, found[i], ExtensionToFolder))
    requires Accounted(files0, files, trace0 + [e])
    requires Elements(found[i..]) - {found[i]} <= files && (Elements(found[i..]) - {found[i]}) !! MovedTargets(trace0 + [e])
    ensures OtherPhaseInv(files, files0, found, i + 1, home, trace0 + [e])
  {
    FoundStep(found, i);
    SourcesStep(trace0, e);
    FirstFreeNamedAfter(existing, GetDestination(home, found[i], ExtensionToFolder), found[i], e.dest);
    var trace := trace0 + [e];
    forall t | 0 <= t < |trace| ensures PlacedByExtension(home, trace[t]) {
      if t < |trace0| {
        assert trace[t] == trace0[t];
      }
    }
  }

  /**
   * The second phase of `main`: scan `dir` for regular files, then try once each of
   * them that is not an image, adding one to `stats[safe_path.parent.name]` per move
   * that succeeds; a failed move is caught and the loop goes on.
   */
  method PlaceOthers(disk: Disk, stats: Stats, dir: Path, home: Path) returns (ghost trace: seq<MoveEvent>)
    requires disk.Valid() && stats.Valid()
    modifies disk, stats
    ensures disk.Valid() && stats.Valid()
    ensures Accounted(old(disk.files), disk.files, trace)
    ensures SourcesDistinct(trace) && Sources(trace) == OtherFiles(old(disk.files), dir)
    ensures forall t :: 0 <= t < |trace| ==> PlacedByExtension(home, trace[t])
    ensures stats.Total() == old(stats.Total()) + MovedCount(trace)
    ensures forall k :: stats.Get(k) == old(stats.Get(k)) + MovedCountFor(trace, k)
    ensures disk.folders == old(disk.folders) + FoldersMade(old(disk.files), trace)
  {
    var found := disk.ScanFiles(dir);
    ghost var files0 := disk.files;
    trace := [];
    AccountedEmpty(files0);
    assert found[0..] == found;
    var i := 0;
    while i < |found|
      invariant disk.Valid() && stats.Valid()
      invariant OtherPhaseInv(disk.files, files0, found, i, home, trace)
      invariant stats.Total() == old(stats.Total()) + MovedCount(trace)
      invariant forall k :: stats.Get(k) == old(stats.Get(k)) + MovedCountFor(trace, k)
      invariant disk.folders == old(disk.folders) + FoldersMade(files0, trace)
      decreases |found| - i
    {
      trace := PlaceOther(disk, stats, found, i, home, files0, old(disk.folders), trace);
      i := i + 1;
    }
    assert found[..i] == found;
  }

  /** Every attempt moved an image to an image path, credited to "Images". */
  ghost predicate ImagesOnly(trace: seq<MoveEvent>) {
    forall t :: 0 <= t < |trace| ==> trace[t].bucket == "Images" && IsImage(trace[t].src) && IsImage(trace[t].dest)
  }

  /** The image phase's attempts are image moves credited to "Images". */
  lemma PlacedByDayImagesOnly(files0: set<Path>, dir: Path, dates: DateSource, home: Path, threshold: int,
                              trace: seq<MoveEvent>)
    requires forall t :: 0 <= t < |trace| ==> PlacedByDay(files0, dir, dates, home, threshold, trace[t])
    ensures ImagesOnly(trace)
  {
  }

  /**
   * A phase that moves images only leaves the non-image files of `dir` as they were.
   */
  lemma ImagePhaseKeepsOthers(files0: set<Path>, files: set<Path>, dir: Path, trace: seq<MoveEvent>)
    requires Accounted(files0, files, trace) && ImagesOnly(trace)
    ensures OtherFiles(files, dir) == OtherFiles(files0, dir)
  {
    forall p | p in MovedSources(trace) + MovedTargets(trace) ensures IsImage(p) {
      var t :| 0 <= t < |trace| && trace[t].moved && (p == trace[t].src || p == trace[t].dest);
    }
  }

  /** How a run ends: the user left, an exception escaped `main`, or the summary was shown with its total. */
  datatype RunEnd = Cancelled | Aborted | Summarised(total: nat)

  /**
   * `main()` after the prompts, with `selected` the folder the user chose, or `None`
   * when they left. `images` and `others` record the moves of the two phases, and `mid`
   * the files between them.
   */
  method Run(disk: Disk, selected: Option<Path>, threshold: int, home: Path, dates: DateSource)
    returns (end: RunEnd, stats: Stats?, ghost images: seq<MoveEvent>, ghost others: seq<MoveEvent>, ghost mid: set<Path>)
    requires disk.Valid()
    modifies disk
    ensures disk.Valid()
    ensures selected.None? <==> end.Cancelled?
    ensures selected.None? ==> stats == null && unchanged(disk)
    ensures selected.Some? ==> stats != null && fresh(stats) && stats.Valid()
    ensures selected.Some? ==> RanOn(old(disk.files), disk.files, old(disk.folders), disk.folders, selected.value,
                                     threshold, home, dates, end, stats, images, others, mid)
    ensures selected.Some? ==> (end.Summarised? <==> StartsFree(old(disk.files), selected.value, dates, home, threshold))
  {
    images, others, mid := [], [], disk.files;
    if selected.None? {
      return Cancelled, null, images, others, mid;
    }
    stats := new Stats();
    ghost var files0, folders0 := disk.files, disk.folders;
    end, images, others, mid := RunOn(disk, stats, selected.value, threshold, home, dates);
    SummaryIffUnblocked(files0, disk.files, folders0, disk.folders, selected.value, threshold, home, dates,
                        end, stats, images, others, mid);
  }

  /**
   * No regular file lies on the path of the log folder, nor on that of the folder of any
   * day with dated images in `dir`: every folder the image phase asks for can be made.
   */
  ghost predicate StartsFree(files0: set<Path>, dir: Path, dates: DateSource, home: Path, threshold: int) {
    && Ancestry(LogFolder(home)) !! files0
    && forall d :: !DayBlocked(files0, files0, dir, dates, home, threshold, d)
  }

  /**
   * What a run on folder `dir` promises: the moves of both phases account for the files;
   * images went by day and the rest by extension; an abort happens only when a regular
   * file lies on the path of the log folder or of a day folder, and leaves the second
   * phase out; a summary follows both phases in full and shows one count per successful move,
   * all images under "Images" and the other files under their folder's name.
   */
  ghost predicate RanOn(files0: set<Path>, files: set<Path>, folders0: set<Path>, folders: set<Path>, dir: Path,
                        threshold: int, home: Path, dates: DateSource,
                        end: RunEnd, stats: Stats, images: seq<MoveEvent>, others: seq<MoveEvent>, mid: set<Path>)
    reads stats
  {
    && !end.Cancelled?
    && RanStops(files0, files, folders0, folders, dir, threshold, home, dates, end, images, others, mid)
    && RanMoves(files0, files, dir, threshold, home, dates, images, others, mid)
    && RanSummary(files0, dir, dates, end, stats, images, others)
  }

  /**
   * When a run stops and which folders it leaves: a blocked log folder aborts it untouched,
   * otherwise the folders made are the log folder's, the day folders' and those of the
   * second phase, and a summary means every day with images has its folder.
   */
  ghost predicate RanStops(files0: set<Path>, files: set<Path>, folders0: set<Path>, folders: set<Path>, dir: Path,
                           threshold: int, home: Path, dates: DateSource,
                           end: RunEnd, images: seq<MoveEvent>, others: seq<MoveEvent>, mid: set<Path>)
  {
    && (end.Aborted? ==> others == [] && mid == files)
    && (end.Aborted? ==> !(Ancestry(LogFolder(home)) !! files0)
                         || exists d :: DayBlocked(files, files0, dir, dates, home, threshold, d))
    && (!(Ancestry(LogFolder(home)) !! files0) ==> end.Aborted? && images == [] && files == files0 && folders == folders0)
    && (Ancestry(LogFolder(home)) !! files0 ==>
          folders == folders0 + Ancestry(LogFolder(home)) + FoldersOf(images) + FoldersMade(mid, others))
    && (end.Summarised? ==> forall d :: DayBucket(files0, dir, dates, d) != {} ==>
          Ancestry(FolderOfDay(files0, dir, dates, home, threshold, d)) <= folders)
  }

  /**
   * The moves of both phases account for the files; images went by day, each into a
   * folder whose path was free when it was tried, and the rest by extension.
   */
  ghost predicate RanMoves(files0: set<Path>, files: set<Path>, dir: Path, threshold: int, home: Path, dates: DateSource,
                           images: seq<MoveEvent>, others: seq<MoveEvent>, mid: set<Path>)
  {
    && Accounted(files0, mid, images) && Accounted(mid, files, others)
    && AttemptsUnblocked(files0, images)
    && SourcesDistinct(images) && Sources(images) <= DatedImages(files0, dir, dates)
    && (forall t :: 0 <= t < |images| ==> PlacedByDay(files0, dir, dates, home, threshold, images[t]))
    && (forall t :: 0 <= t < |others| ==> PlacedByExtension(home, others[t]))
  }

  /** A summary follows both phases in full and shows one count per successful move. */
  ghost predicate RanSummary(files0: set<Path>, dir: Path, dates: DateSource, end: RunEnd, stats: Stats,
                             images: seq<MoveEvent>, others: seq<MoveEvent>)
    reads stats
  {
    end.Summarised? ==>
      && stats.Valid()
      && Sources(images) == DatedImages(files0, dir, dates)
      && SourcesDistinct(others) && Sources(others) == OtherFiles(files0, dir)
      && end.total == stats.Total() == MovedCount(images) + MovedCount(others)
      && stats.Get("Images") == MovedCount(images)
      && forall k :: k != "Images" ==> stats.Get(k) == MovedCountFor(others, k)
  }

  /**
   * The run once a folder is chosen: the log folder is made (an exception there
   * escapes `main`), the images are filed by day (a day folder that cannot be made
   * escapes too), then the other files by extension, and the summary shows the sum of `stats`.
   */
  method RunOn(disk: Disk, stats: Stats, dir: Path, threshold: int, home: Path, dates: DateSource)
    returns (end: RunEnd, ghost images: seq<MoveEvent>, ghost others: seq<MoveEvent>, ghost mid: set<Path>)
    requires disk.Valid() && stats.Valid() && stats.keys == []
    modifies disk, stats
    ensures disk.Valid() && stats.Valid()
    ensures RanOn(old(disk.files), disk.files, old(disk.folders), disk.folders, dir, threshold, home, dates,
                  end, stats, images, others, mid)
  {
    images, others, mid := [], [], disk.files;
    var made := disk.MakeDirs(LogFolder(home));
    if !made {
      RanOnLogBlocked(disk.files, disk.folders, dir, threshold, home, dates, stats);
      return Aborted, images, others, mid;
    }
    ghost var files0, folders1 := disk.files, disk.folders;
    var completed;
    completed, images := OrganizeImagesByDay(disk, stats, dir, threshold, home, dates);
    mid := disk.files;
    assert ImagesFiled(files0, mid, folders1, disk.folders, dir, threshold, home, dates, completed, images);
    if !completed {
      RanOnImagesStopped(files0, mid, old(disk.folders), disk.folders, dir, threshold, home, dates, stats, images);
      return Aborted, images, others, mid;
    }
    PlacedByDayImagesOnly(files0, dir, dates, home, threshold, images);
    ghost var folders2 := disk.folders;
    end, others := FinishRun(disk, stats, dir, home, files0, images);
    assert OthersFiled(files0, mid, disk.files, folders2, disk.folders, dir, home, others);
    RanOnFinished(files0, mid, disk.files, old(disk.folders), folders2, disk.folders, dir, threshold, home, dates,
                  end, stats, images, others);
  }

  /** What the image phase leaves behind, as `OrganizeImagesByDay` states it. */
  ghost predicate ImagesFiled(files0: set<Path>, files: set<Path>, folders0: set<Path>, folders: set<Path>, dir: Path,
                              threshold: int, home: Path, dates: DateSource, completed: bool, images: seq<MoveEvent>) {
    && Accounted(files0, files, images) && AttemptsUnblocked(files0, images) && SourcesDistinct(images)
    && (forall t :: 0 <= t < |images| ==> PlacedByDay(files0, dir, dates, home, threshold, images[t]))
    && Sources(images) <= DatedImages(files0, dir, dates)
    && (completed ==> Sources(images) == DatedImages(files0, dir, dates))
    && (!completed ==> exists d :: DayBlocked(files, files0, dir, dates, home, threshold, d))
    && (completed ==> forall d :: DayBucket(files0, dir, dates, d) != {} ==>
          Ancestry(FolderOfDay(files0, dir, dates, home, threshold, d)) <= folders)
    && folders == folders0 + FoldersOf(images)
  }

  /** What the second phase leaves behind, as `FinishRun` states it. */
  ghost predicate OthersFiled(files0: set<Path>, mid: set<Path>, files: set<Path>, folders1: set<Path>, folders: set<Path>,
                              dir: Path, home: Path, others: seq<MoveEvent>) {
    && Accounted(mid, files, others)
    && (forall t :: 0 <= t < |others| ==> PlacedByExtension(home, others[t]))
    && SourcesDistinct(others) && Sources(others) == OtherFiles(files0, dir)
    && folders == folders1 + FoldersMade(mid, others)
  }

  /** A regular file on the log folder's path: the run aborts before touching anything. */
  lemma RanOnLogBlocked(files0: set<Path>, folders0: set<Path>, dir: Path, threshold: int, home: Path, dates: DateSource,
                        stats: Stats)
    requires !(Ancestry(LogFolder(home)) !! files0)
    ensures RanOn(files0, files0, folders0, folders0, dir, threshold, home, dates, Aborted, stats, [], [], files0)
  {
    AccountedEmpty(files0);
  }

  /** A day folder that could not be made: the run aborts after the image phase. */
  lemma RanOnImagesStopped(files0: set<Path>, mid: set<Path>, folders0: set<Path>, folders: set<Path>, dir: Path,
                           threshold: int, home: Path, dates: DateSource, stats: Stats, images: seq<MoveEvent>)
    requires Ancestry(LogFolder(home)) !! files0
    requires ImagesFiled(files0, mid, folders0 + Ancestry(LogFolder(home)), folders, dir, threshold, home, dates, false, images)
    ensures RanOn(files0, mid, folders0, folders, dir, threshold, home, dates, Aborted, stats, images, [], mid)
  {
    StoppedStops(files0, mid, folders0, folders, dir, threshold, home, dates, images);
    StoppedMoves(files0, mid, folders0, folders, dir, threshold, home, dates, images);
  }

  lemma StoppedStops(files0: set<Path>, mid: set<Path>, folders0: set<Path>, folders: set<Path>, dir: Path,
                     threshold: int, home: Path, dates: DateSource, images: seq<MoveEvent>)
    requires Ancestry(LogFolder(home)) !! files0
    requires exists d :: DayBlocked(mid, files0, dir, dates, home, threshold, d)
    requires folders == folders0 + Ancestry(LogFolder(home)) + FoldersOf(images)
    ensures RanStops(files0, mid, folders0, folders, dir, threshold, home, dates, Aborted, images, [], mid)
  {
    assert FoldersMade(mid, []) == {};
  }

  lemma StoppedMoves(files0: set<Path>, mid: set<Path>, folders0: set<Path>, folders: set<Path>, dir: Path,
                     threshold: int, home: Path, dates: DateSource, images: seq<MoveEvent>)
    requires ImagesFiled(files0, mid, folders0 + Ancestry(LogFolder(home)), folders, dir, threshold, home, dates, false, images)
    ensures RanMoves(files0, mid, dir, threshold, home, dates, images, [], mid)
  {
    AccountedEmpty(mid);
  }

  /** Both phases ran in full: the run ends with the summary. */
  lemma RanOnFinished(files0: set<Path>, mid: set<Path>, files: set<Path>, folders0: set<Path>, folders1: set<Path>,
                      folders: set<Path>, dir: Path, threshold: int, home: Path, dates: DateSource,
                      end: RunEnd, stats: Stats, images: seq<MoveEvent>, others: seq<MoveEvent>)
    requires Ancestry(LogFolder(home)) !! files0
    requires ImagesFiled(files0, mid, folders0 + Ancestry(LogFolder(home)), folders1, dir, threshold, home, dates, true, images)
    requires OthersFiled(files0, mid, files, folders1, folders, dir, home, others)
    requires end.Summarised? && stats.Valid()
    requires end.total == stats.Total() == MovedCount(images) + MovedCount(others)
    requires stats.Get("Images") == MovedCount(images)
    requires forall k :: k != "Images" ==> stats.Get(k) == MovedCountFor(others, k)
    ensures RanOn(files0, files, folders0, folders, dir, threshold, home, dates, end, stats, images, others, mid)
  {
    assert folders1 <= folders;
  }

  /**
   * The reverse of the stops: a run ends with a summary exactly when, at its start, no
   * regular file lies on the path of the log folder or of the folder of any day with images.
   */
  lemma SummaryIffUnblocked(files0: set<Path>, files: set<Path>, folders0: set<Path>, folders: set<Path>, dir: Path,
                            threshold: int, home: Path, dates: DateSource,
                            end: RunEnd, stats: Stats, images: seq<MoveEvent>, others: seq<MoveEvent>, mid: set<Path>)
    requires RanOn(files0, files, folders0, folders, dir, threshold, home, dates, end, stats, images, others, mid)
    ensures end.Summarised? <==> StartsFree(files0, dir, dates, home, threshold)
  {
    if end.Summarised? {
      forall d, b | DayBucket(files0, dir, dates, d) != {} && b in Ancestry(FolderOfDay(files0, dir, dates, home, threshold, d))
        ensures b !in files0
      {
        DayFreeAtStart(files0, mid, dir, threshold, home, dates, images, d, b);
      }
    } else if Ancestry(LogFolder(home)) !! files0 {
      var d :| DayBlocked(mid, files0, dir, dates, home, threshold, d);
      DayBlockedAtStart(files0, mid, dir, threshold, home, dates, images, d);
    }
  }

  /**
   * A path on the way to the folder of a day with images held no regular file at the
   * start of a run whose image phase tried every dated image: it is either on the way to
   * the free log folder, or not an image, so no move took it away before that day's
   * first image found its folder's path free.
   */
  lemma DayFreeAtStart(files0: set<Path>, mid: set<Path>, dir: Path, threshold: int, home: Path, dates: DateSource,
                       images: seq<MoveEvent>, d: ValidDate, b: Path)
    requires Ancestry(LogFolder(home)) !! files0
    requires AttemptsUnblocked(files0, images) && Sources(images) == DatedImages(files0, dir, dates)
    requires forall t :: 0 <= t < |images| ==> PlacedByDay(files0, dir, dates, home, threshold, images[t])
    requires DayBucket(files0, dir, dates, d) != {} && b in Ancestry(FolderOfDay(files0, dir, dates, home, threshold, d))
    ensures b !in files0
  {
    if b !in Ancestry(LogFolder(home)) {
      BlockerNotImage(home, d, |DayBucket(files0, dir, dates, d)|, threshold, b);
      var p :| p in DayBucket(files0, dir, dates, d);
      assert p in Sources(images);
      var t :| 0 <= t < |images| && images[t].src == p;
      assert PlacedByDay(files0, dir, dates, home, threshold, images[t]);
      UnblockedAt(files0, images, t);
      forall i | 0 <= i < t ensures images[..t][i].src != b {
        assert images[i].src in Sources(images);
      }
      assert b !in MovedSources(images[..t]);
    }
  }

  /**
   * A day folder blocked when the image phase stopped was blocked at its start, once the
   * log folder was free: the phase only puts images there, deeper than the log folder.
   */
  lemma DayBlockedAtStart(files0: set<Path>, mid: set<Path>, dir: Path, threshold: int, home: Path, dates: DateSource,
                          images: seq<MoveEvent>, d: ValidDate)
    requires Ancestry(LogFolder(home)) !! files0
    requires Accounted(files0, mid, images)
    requires forall t :: 0 <= t < |images| ==> PlacedByDay(files0, dir, dates, home, threshold, images[t])
    requires DayBlocked(mid, files0, dir, dates, home, threshold, d)
    ensures DayBlocked(files0, files0, dir, dates, home, threshold, d)
  {
    var folder := FolderOfDay(files0, dir, dates, home, threshold, d);
    var b :| b in Ancestry(folder) && b in mid;
    ImageTargetsDeep(files0, dir, dates, home, threshold, images);
    if b in MovedTargets(images) {
      OffLogPath(home, b);
    }
    BlockerNotImage(home, d, |DayBucket(files0, dir, dates, d)|, threshold, b);
    assert b in files0;
  }

  /** The targets the image phase filled are images, each deeper than `home/File_Triage`. */
  lemma ImageTargetsDeep(files0: set<Path>, dir: Path, dates: DateSource, home: Path, threshold: int,
                         images: seq<MoveEvent>)
    requires forall t :: 0 <= t < |images| ==> PlacedByDay(files0, dir, dates, home, threshold, images[t])
    ensures forall p :: p in MovedTargets(images) ==> IsImage(p) && |p| > |home| + 2
  {
    forall p | p in MovedTargets(images) ensures IsImage(p) && |p| > |home| + 2 {
      var t :| 0 <= t < |images| && images[t].moved && images[t].dest == p;
      assert PlacedByDay(files0, dir, dates, home, threshold, images[t]);
      assert |p| == |Parent(p)| + 1;
    }
  }

  /** A path longer than `home/File_Triage` is not on the way to the log folder. */
  lemma OffLogPath(home: Path, p: Path)
    requires |p| > |home| + 2
    ensures p !in Ancestry(LogFolder(home))
  {
  }

  /** The second phase and the summary, after an image phase that moved images only. */
  method FinishRun(disk: Disk, stats: Stats, dir: Path, home: Path, ghost files0: set<Path>, ghost images: seq<MoveEvent>)
    returns (end: RunEnd, ghost others: seq<MoveEvent>)
    requires disk.Valid() && stats.Valid()
    requires Accounted(files0, disk.files, images) && SourcesDistinct(images)
    requires ImagesOnly(images)
    requires stats.Total() == MovedCount(images)
    requires forall k :: stats.Get(k) == MovedCountFor(images, k)
    modifies disk, stats
    ensures disk.Valid() && stats.Valid()
    ensures end.Summarised? && Accounted(old(disk.files), disk.files, others)
    ensures forall t :: 0 <= t < |others| ==> PlacedByExtension(home, others[t])
    ensures SourcesDistinct(others) && Sources(others) == OtherFiles(files0, dir)
    ensures end.total == stats.Total() == MovedCount(images) + MovedCount(others)
    ensures stats.Get("Images") == MovedCount(images)
    ensures forall k :: k != "Images" ==> stats.Get(k) == MovedCountFor(others, k)
    ensures disk.folders == old(disk.folders) + FoldersMade(old(disk.files), others)
  {
    ImagePhaseKeepsOthers(files0, disk.files, dir, images);
    others := PlaceOthers(disk, stats, dir, home);
    MovedCountOneKey(images, "Images");
    MovedCountForNone(others, "Images");
    end := Summarised(stats.Total());
  }
}
