/**
 * `main.py`, the single-file version of the organiser: no image phase; every regular
 * file of the chosen folder is sent to the folder of its extension, looked up without
 * lower-casing, and `stats` counts every file tried, whether its move succeeded or not.
 * It shares `resolve_file_conflict` (the same probe) and the extension table with the
 * package version.
 */
module MainScript {
  import opened Wrappers
  import opened Text
  import opened Paths
  import opened FileSystem
  import opened Statistics
  import opened FileOps
  import opened Categorization
  import opened FileOrganiser

  /**
   * `get_destination` of `main.py`: the table's folder for the extension exactly as
   * written, under home; `File_Triage/Autres` for any other.
   */
  function GetDestinationExact(home: Path, file: Path, table: map<string, Path>): Path {
    var ext := Extension(Name(file));
    if ext in table then home + table[ext] else home + OtherFolder
  }

  /** On an extension already in lower case the two lookups agree. */
  lemma ExactAgreesOnLowerCase(home: Path, file: Path, table: map<string, Path>)
    requires Lower(Extension(Name(file))) == Extension(Name(file))
    ensures GetDestinationExact(home, file, table) == GetDestination(home, file, table)
  {
  }

  /**
   * The two lookups part exactly on names whose extension is a key of the table only
   * once lower-cased: there the exact lookup falls back to `Autres`, the other does not.
   */
  lemma ExactMissesOnlyCase(home: Path, file: Path)
    ensures var ext := Extension(Name(file));
            GetDestinationExact(home, file, ExtensionToFolder) != GetDestination(home, file, ExtensionToFolder)
            <==> ext !in ExtensionToFolder && Lower(ext) in ExtensionToFolder
  {
    var ext := Extension(Name(file));
    if ext !in ExtensionToFolder && Lower(ext) in ExtensionToFolder {
      var folder := ExtensionToFolder[Lower(ext)];
      assert (home + folder)[|home| + 1] == folder[1] != "Autres";
    } else if ext in ExtensionToFolder {
      LowerOfKey(ext);
    }
  }

  /** Every key of the extension table is already lower case. */
  lemma LowerOfKey(ext: string)
    requires ext in ExtensionToFolder
    ensures Lower(ext) == ext
  {
  }

  /** Upper case is not looked up: `x.pdf` goes to `Documents`, `X.PDF` to `Autres`. */
  lemma ExactIsCaseSensitive(home: Path, dir: Path)
    ensures GetDestinationExact(home, dir + ["x.pdf"], ExtensionToFolder) == home + ["File_Triage", "Documents"]
    ensures GetDestinationExact(home, dir + ["X.PDF"], ExtensionToFolder) == home + ["File_Triage", "Autres"]
    ensures GetDestination(home, dir + ["X.PDF"], ExtensionToFolder) == home + ["File_Triage", "Documents"]
  {
    assert Name(dir + ["x.pdf"]) == "x.pdf" && Name(dir + ["X.PDF"]) == "X.PDF";
    assert LastDot("x.pdf") == 1 by {
      LastDotIs("x.pdf", 1);
    }
    assert LastDot("X.PDF") == 1 by {
      LastDotIs("X.PDF", 1);
    }
    assert Extension("x.pdf") == "pdf" && Extension("X.PDF") == "PDF";
    assert Lower("PDF") == "pdf";
  }

  /**
   * `move_file` of `main.py`: making the parent folder is outside the `try`, so its
   * failure raises (`raised`, nothing changed); a failed `shutil.move` is caught and
   * gives `ok` false.
   */
  method MoveFileReporting(disk: Disk, src: Path, dest: Path) returns (raised: bool, ok: bool)
    requires disk.Valid() && !disk.Exists(dest)
    modifies disk
    ensures disk.Valid()
    ensures raised == !(Ancestry(Parent(dest)) !! old(disk.files))
    ensures ok == (!raised && src in old(disk.files) && disk.moveSucceeds(src, dest))
    ensures disk.files == if ok then old(disk.files) - {src} + {dest} else old(disk.files)
    ensures disk.folders == if raised then old(disk.folders) else old(disk.folders) + Ancestry(Parent(dest))
  {
    var made := disk.MakeDirs(Parent(dest));
    raised := !made;
    ok := false;
    if made {
      ParentAncestryShorter(dest);
      ok := disk.Move(src, dest);
    }
  }

  /**
   * What the loop of `main.py` did with one file: it went to the folder of its exact
   * extension, under its own name or `stem_k.suffix`, credited to that folder's name.
   */
  ghost predicate PlacedExactly(home: Path, e: MoveEvent) {
    && Parent(e.dest) == GetDestinationExact(home, e.src, ExtensionToFolder)
    && NamedAfter(e.src, e.dest)
    && e.bucket == Name(Parent(e.dest))
  }

  /**
   * The state of the loop before the `i`-th scanned file: the files not yet reached are
   * in place, every file passed so far was tried once and sent by its exact extension.
   */
  ghost predicate ScriptInv(files: set<Path>, files0: set<Path>, found: seq<Path>, i: nat, home: Path,
                            trace: seq<MoveEvent>) {
    && Distinct(found) && i <= |found| && |trace| == i
    && Accounted(files0, files, trace)
    && Elements(found[i..]) <= files && Elements(found[i..]) !! MovedTargets(trace)
    && SourcesDistinct(trace) && Sources(trace) == Elements(found[..i])
    && forall t :: 0 <= t < |trace| ==> PlacedExactly(home, trace[t])
  }

  /** Every attempt counts once, so the counts of all keys add up to the number of attempts. */
  lemma {:induction false} AttemptsAddUp(trace: seq<MoveEvent>, k: string)
    ensures MovedCountFor(trace, k) <= AttemptCountFor(trace, k) <= |trace|
    ensures MovedCount(trace) <= |trace|
  {
    if trace != [] {
      AttemptsAddUp(trace[..|trace| - 1], k);
    }
  }

  /**
   * One file of the loop of `main.py`: pick the collision-free target in `folder`, call
   * `move_file`, then add one to `stats[safe_path.parent.name]` whatever the move gave;
   * when making the folder raises, nothing has changed. `pending` are the files the
   * loop has still to try; they stay where they are.
   */
  method MoveAndCount(disk: Disk, stats: Stats, src: Path, folder: Path,
                      ghost before: set<Path>, ghost trace: seq<MoveEvent>, ghost pending: set<Path>)
    returns (raised: bool, e: MoveEvent)
    requires disk.Valid() && stats.Valid()
    requires Accounted(before, disk.files, trace)
    requires pending <= disk.files && pending !! MovedTargets(trace) && src in pending
    modifies disk, stats
    ensures disk.Valid() && stats.Valid()
    ensures e.src == src && e.bucket == Name(folder) && Parent(e.dest) == folder
    ensures IsFirstFree(old(disk.files + disk.folders), folder, Name(src), e.dest)
    ensures raised == !(Ancestry(folder) !! old(disk.files))
    ensures raised ==> disk.files == old(disk.files) && stats.Total() == old(stats.Total())
    ensures raised ==> forall k :: stats.Get(k) == old(stats.Get(k))
    ensures !raised ==> e.moved == disk.moveSucceeds(src, e.dest)
    ensures !raised ==> Accounted(before, disk.files, trace + [e])
    ensures !raised ==> pending - {src} <= disk.files && (pending - {src}) !! MovedTargets(trace + [e])
    ensures !raised ==> stats.Total() == old(stats.Total()) + 1
    ensures !raised ==> forall k :: stats.Get(k) == old(stats.Get(k)) + (if k == Name(folder) then 1 else 0)
    ensures disk.folders == old(disk.folders) + (if raised then {} else Ancestry(folder))
  {
    var safe := ResolveFileConflict(src, folder, disk.files + disk.folders);
    var ok;
    raised, ok := MoveFileReporting(disk, src, safe);
    e := MoveEvent(src, safe, ok, Name(Parent(safe)));
    if !raised {
      AccountedStep(before, old(disk.files), trace, pending, e, disk.files);
      stats.Increment(Name(Parent(safe)));
    }
  }

  /** A regular file lies on the path of the folder `main.py` sends `p` to, so `move_file` raises. */
  ghost predicate FolderBlocked(files: set<Path>, home: Path, p: Path) {
    !(Ancestry(GetDestinationExact(home, p, ExtensionToFolder)) !! files)
  }

  /**
   * One turn of the loop of `main.py`, for the `i`-th scanned file: its folder by exact
   * extension, then `MoveAndCount`; when making the folder raises, the run stops there.
   */
  method PlaceCounted(disk: Disk, stats: Stats, found: seq<Path>, i: nat, home: Path,
                      ghost files0: set<Path>, ghost trace0: seq<MoveEvent>)
    returns (raised: bool, ghost trace: seq<MoveEvent>)
    requires disk.Valid() && stats.Valid()
    requires i < |found| && ScriptInv(disk.files, files0, found, i, home, trace0)
    requires AttemptsUnblocked(files0, trace0)
    modifies disk, stats
    ensures disk.Valid() && stats.Valid()
    ensures raised == FolderBlocked(old(disk.files), home, found[i])
    ensures AttemptsUnblocked(files0, trace)
    ensures raised ==> trace == trace0 && disk.files == old(disk.files) && stats.Total() == old(stats.Total())
    ensures !raised ==> ScriptInv(disk.files, files0, found, i + 1, home, trace)
    ensures !raised ==> stats.Total() == old(stats.Total()) + 1
    ensures forall k :: stats.Get(k) + AttemptCountFor(trace0, k) == old(stats.Get(k)) + AttemptCountFor(trace, k)
    ensures raised ==> disk.folders == old(disk.folders)
    ensures !raised ==> disk.folders == old(disk.folders) + Ancestry(GetDestinationExact(home, found[i], ExtensionToFolder))
    ensures !raised ==> FoldersOf(trace) == FoldersOf(trace0) + Ancestry(GetDestinationExact(home, found[i], ExtensionToFolder))
  {
    var src := found[i];
    var folder := GetDestinationExact(home, src, ExtensionToFolder);
    var e;
    ghost var existing := disk.files + disk.folders;
    raised, e := MoveAndCount(disk, stats, src, folder, files0, trace0, Elements(found[i..]));
    trace := trace0;
    if !raised {
      trace := trace0 + [e];
      FoldersAppend({}, trace0, e);
      UnblockedStep(files0, trace0, e);
      ScriptStep(old(disk.files), disk.files, files0, existing, found, i, home, folder, trace0, e);
    }
  }

  /** Trying the `i`-th scanned file takes the loop of `main.py` to the next file. */
  lemma ScriptStep(before: set<Path>, files: set<Path>, files0: set<Path>, existing: set<Path>, found: seq<Path>,
                   i: nat, home: Path, folder: Path, trace0: seq<MoveEvent>, e: MoveEvent)
    requires i < |found| && ScriptInv(before, files0, found, i, home, trace0)
    requires e.src == found[i] && e.bucket == Name(Parent(e.dest))
    requires folder == GetDestinationExact(home, found[i], ExtensionToFolder)
    requires IsFirstFree(existing, folder, Name(found[i]), e.dest)
    requires Accounted(files0, files, trace0 + [e])
    requires Elements(found[i..]) - {found[i]} <= files && (Elements(found[i..]) - {found[i]}) !! MovedTargets(trace0 + [e])
    ensures ScriptInv(files, files0, found, i + 1, home, trace0 + [e])
    ensures forall k :: AttemptCountFor(trace0 + [e], k) == AttemptCountFor(trace0, k) + (if e.bucket == k then 1 else 0)
  {
    FoundStep(found, i);
    SourcesScanned(found, i, trace0, e);
    FirstFreeNamedAfter(existing, folder, found[i], e.dest);
    PlacedExactlyStep(home, trace0, e);
    AttemptCountStep(trace0, e);
  }

  /** One more attempt counts once, for its own key. */
  lemma AttemptCountStep(trace0: seq<MoveEvent>, e: MoveEvent)
    ensures forall k :: AttemptCountFor(trace0 + [e], k) == AttemptCountFor(trace0, k) + (if e.bucket == k then 1 else 0)
  {
    forall k ensures AttemptCountFor(trace0 + [e], k) == AttemptCountFor(trace0, k) + (if e.bucket == k then 1 else 0) {
      MovedCountAppend(trace0, e, k);
    }
  }

  /** The attempts made so far are those of the files scanned so far, each once. */
  lemma SourcesScanned(found: seq<Path>, i: nat, trace0: seq<MoveEvent>, e: MoveEvent)
    requires Distinct(found) && i < |found| && e.src == found[i]
    requires SourcesDistinct(trace0) && Sources(trace0) == Elements(found[..i])
    ensures SourcesDistinct(trace0 + [e]) && Sources(trace0 + [e]) == Elements(found[..i + 1])
  {
    FoundStep(found, i);
    SourcesStep(trace0, e);
    assert found[..i + 1] == found[..i] + [found[i]];
  }

  /** A move placed as `main.py` places it extends a trace of such moves. */
  lemma PlacedExactlyStep(home: Path, trace0: seq<MoveEvent>, e: MoveEvent)
    requires forall t :: 0 <= t < |trace0| ==> PlacedExactly(home, trace0[t])
    requires PlacedExactly(home, e)
    ensures forall t :: 0 <= t < |trace0 + [e]| ==> PlacedExactly(home, (trace0 + [e])[t])
  {
    forall t | 0 <= t < |trace0 + [e]| ensures PlacedExactly(home, (trace0 + [e])[t]) {
      if t < |trace0| {
        assert (trace0 + [e])[t] == trace0[t];
      }
    }
  }

  /** The file at which the loop raised is a file of `dir` that was not tried. */
  lemma RaisedAtUntried(files0: set<Path>, files: set<Path>, dir: Path, found: seq<Path>, i: nat, home: Path,
                        trace: seq<MoveEvent>)
    requires Distinct(found) && i < |found| && Sources(trace) == Elements(found[..i])
    requires forall p :: p in found <==> p in files0 && IsChildOf(p, dir)
    requires FolderBlocked(files, home, found[i])
    ensures exists p :: p in FilesOf(files0, dir) && p !in Sources(trace) && FolderBlocked(files, home, p)
  {
    FoundStep(found, i);
    assert found[i] in FilesOf(files0, dir) && found[i] !in Sources(trace);
  }

  /** Once the loop has run through the scan, every regular file of `dir` was tried once. */
  lemma ScannedAll(files0: set<Path>, dir: Path, found: seq<Path>, trace: seq<MoveEvent>)
    requires Distinct(found) && |trace| == |found| && Sources(trace) == Elements(found[..|found|])
    requires forall p :: p in found <==> p in files0 && IsChildOf(p, dir)
    ensures Sources(trace) == FilesOf(files0, dir) && |trace| == |FilesOf(files0, dir)|
  {
    assert found[..|found|] == found;
    assert Elements(found) == FilesOf(files0, dir);
    DistinctCard(found);
  }

  /** Every file a trace of exact placements tried has its folder among the folders the trace made. */
  lemma FilesReached(home: Path, trace: seq<MoveEvent>, files: set<Path>, folders0: set<Path>, folders: set<Path>)
    requires forall t :: 0 <= t < |trace| ==> PlacedExactly(home, trace[t])
    requires Sources(trace) == files && folders == folders0 + FoldersOf(trace)
    ensures forall p :: p in files ==> Ancestry(GetDestinationExact(home, p, ExtensionToFolder)) <= folders
  {
    forall p | p in files ensures Ancestry(GetDestinationExact(home, p, ExtensionToFolder)) <= folders {
      var t :| 0 <= t < |trace| && trace[t].src == p;
      assert PlacedExactly(home, trace[t]);
      FoldersOfHas(trace, t);
    }
  }

  /** How `main.py` ends: an exception escapes `main`, or the summary is shown with its total. */
  datatype ScriptEnd = Raised | Shown(total: nat)

  /** The regular files of `dir`. */
  ghost function FilesOf(files: set<Path>, dir: Path): set<Path> {
    set p | p in files && IsChildOf(p, dir)
  }

  /**
   * What `main()` of `main.py` promises once the user has chosen `dir`: every move is
   * accounted for, each file of `dir` was tried at most once and sent by its exact
   * extension, and the folders made are those on the paths of the folders tried. Every
   * file was tried while its folder's path was free of regular files, and the run
   * raises only at an untried file of `dir` whose folder has a regular file on its path;
   * when the summary is shown every file of `dir` was tried once, the total is the number
   * of files tried, moved or not, each key counts its attempts, and every file's folder exists.
   */
  ghost predicate ScriptRan(files0: set<Path>, files: set<Path>, folders0: set<Path>, folders: set<Path>, dir: Path,
                            home: Path, end: ScriptEnd, stats: Stats, trace: seq<MoveEvent>)
    reads stats
  {
    && Accounted(files0, files, trace) && SourcesDistinct(trace)
    && Sources(trace) <= FilesOf(files0, dir)
    && (forall t :: 0 <= t < |trace| ==> PlacedExactly(home, trace[t]))
    && folders == folders0 + FoldersOf(trace)
    && (forall t :: 0 <= t < |trace| ==> !FolderBlocked(FilesAfter(files0, trace[..t]), home, trace[t].src))
    && (end.Raised? ==> exists p :: p in FilesOf(files0, dir) && p !in Sources(trace) && FolderBlocked(files, home, p))
    && (end.Shown? ==>
          && stats.Valid()
          && Sources(trace) == FilesOf(files0, dir)
          && end.total == stats.Total() == |trace| == |FilesOf(files0, dir)|
          && (forall k :: stats.Get(k) == AttemptCountFor(trace, k))
          && forall p :: p in FilesOf(files0, dir) ==> Ancestry(GetDestinationExact(home, p, ExtensionToFolder)) <= folders)
  }

  /**
   * `main()` of `main.py` after the prompt. When the user leaves, `display_summary(stats)`
   * runs with `stats` never assigned and raises. Otherwise the files of `dir` are tried
   * in turn, as `ScriptRan` states.
   */
  method RunScript(disk: Disk, selected: Option<Path>, home: Path)
    returns (end: ScriptEnd, stats: Stats?, ghost trace: seq<MoveEvent>)
    requires disk.Valid()
    modifies disk
    ensures disk.Valid()
    ensures selected.None? ==> end == Raised && stats == null && trace == [] && unchanged(disk)
    ensures selected.Some? ==> && stats != null && fresh(stats) && stats.Valid()
                               && ScriptRan(old(disk.files), disk.files, old(disk.folders), disk.folders, selected.value,
                                            home, end, stats, trace)
  {
    trace := [];
    if selected.None? {
      return Raised, null, trace;
    }
    var dir := selected.value;
    var found := disk.ScanFiles(dir);
    stats := new Stats();
    ghost var files0 := disk.files;
    AccountedEmpty(files0);
    assert found[0..] == found;
    var i := 0;
    while i < |found|
      invariant disk.Valid() && stats.Valid() && fresh(stats)
      invariant ScriptInv(disk.files, files0, found, i, home, trace)
      invariant AttemptsUnblocked(files0, trace)
      invariant disk.folders == old(disk.folders) + FoldersOf(trace)
      invariant stats.Total() == i
      invariant forall k :: stats.Get(k) == AttemptCountFor(trace, k)
      decreases |found| - i
    {
      var raised;
      ghost var folders1, trace1 := disk.folders, trace;
      raised, trace := PlaceCounted(disk, stats, found, i, home, files0, trace);
      if raised {
        ScriptRaised(files0, disk.files, old(disk.folders), disk.folders, dir, found, i, home, stats, trace);
        return Raised, stats, trace;
      }
      UnionShift(old(disk.folders), folders1, disk.folders, FoldersOf(trace1), FoldersOf(trace),
                 Ancestry(GetDestinationExact(home, found[i], ExtensionToFolder)));
      i := i + 1;
    }
    ScriptShown(files0, disk.files, old(disk.folders), disk.folders, dir, found, home, stats, trace);
    end := Shown(stats.Total());
  }

  /** The loop of `main.py` raised at the `i`-th scanned file. */
  lemma ScriptRaised(files0: set<Path>, files: set<Path>, folders0: set<Path>, folders: set<Path>, dir: Path,
                     found: seq<Path>, i: nat, home: Path, stats: Stats, trace: seq<MoveEvent>)
    requires i < |found| && ScriptInv(files, files0, found, i, home, trace)
    requires forall p :: p in found <==> p in files0 && IsChildOf(p, dir)
    requires FolderBlocked(files, home, found[i])
    requires folders == folders0 + FoldersOf(trace) && AttemptsUnblocked(files0, trace)
    ensures ScriptRan(files0, files, folders0, folders, dir, home, Raised, stats, trace)
  {
    RaisedAtUntried(files0, files, dir, found, i, home, trace);
    FoundStep(found, i);
    ScriptUnblockedAt(files0, home, trace);
  }

  /** The loop of `main.py` ran through the scan: the summary is shown. */
  lemma ScriptShown(files0: set<Path>, files: set<Path>, folders0: set<Path>, folders: set<Path>, dir: Path,
                    found: seq<Path>, home: Path, stats: Stats, trace: seq<MoveEvent>)
    requires ScriptInv(files, files0, found, |found|, home, trace)
    requires forall p :: p in found <==> p in files0 && IsChildOf(p, dir)
    requires folders == folders0 + FoldersOf(trace) && AttemptsUnblocked(files0, trace)
    requires stats.Valid() && stats.Total() == |found|
    requires forall k :: stats.Get(k) == AttemptCountFor(trace, k)
    ensures ScriptRan(files0, files, folders0, folders, dir, home, Shown(stats.Total()), stats, trace)
  {
    ScannedAll(files0, dir, found, trace);
    FilesReached(home, trace, FilesOf(files0, dir), folders0, folders);
    ScriptUnblockedAt(files0, home, trace);
  }

  /**
   * In a trace of exact placements whose folders were free when tried, no file was tried
   * while a regular file lay on the path of its folder.
   */
  lemma ScriptUnblockedAt(files0: set<Path>, home: Path, trace: seq<MoveEvent>)
    requires AttemptsUnblocked(files0, trace)
    requires forall t :: 0 <= t < |trace| ==> PlacedExactly(home, trace[t])
    ensures forall t :: 0 <= t < |trace| ==> !FolderBlocked(FilesAfter(files0, trace[..t]), home, trace[t].src)
  {
    forall t | 0 <= t < |trace| ensures !FolderBlocked(FilesAfter(files0, trace[..t]), home, trace[t].src) {
      assert PlacedExactly(home, trace[t]);
      UnblockedAt(files0, trace, t);
    }
  }
}
