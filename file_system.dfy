/**
 * The disk as the placement code sees it: which paths exist, which of them are
 * folders, and whether `shutil.move` of one file to one target succeeds (an input
 * fixed for the run). Nothing else about files (contents, sizes, times) is kept.
 */
module FileSystem {
  import opened Paths

  /** One result of `directory.iterdir()`, with its `is_file()` answer. */
  datatype Entry = Entry(path: Path, isFile: bool)

  /** No path is listed twice. */
  predicate DistinctPaths(entries: seq<Entry>) {
    forall i, j :: 0 <= i < j < |entries| ==> entries[i].path != entries[j].path
  }

  /**
   * `entries` is a listing of folder `dir` on a disk with these regular files and
   * folders: each entry once, every entry of `dir` present, `isFile` answered truly.
   */
  ghost predicate ListingOf(entries: seq<Entry>, files: set<Path>, folders: set<Path>, dir: Path) {
    && DistinctPaths(entries)
    && (forall e :: e in entries ==> IsChildOf(e.path, dir) && (e.path in files || e.path in folders) && e.isFile == (e.path in files))
    && (forall p :: (p in files || p in folders) && IsChildOf(p, dir) ==> exists e :: e in entries && e.path == p)
  }

  class Disk {
    var files: set<Path>
    var folders: set<Path>
    /** Whether `shutil.move(src, dest)` returns normally when `src` exists and `dest` does not. */
    const moveSucceeds: (Path, Path) -> bool

    ghost predicate Valid()
      reads this
    {
      files !! folders
    }

    /** `path.exists()`. */
    predicate Exists(p: Path)
      reads this
    {
      p in files || p in folders
    }

    constructor (files: set<Path>, folders: set<Path>, moveSucceeds: (Path, Path) -> bool)
      requires files !! folders
      ensures Valid()
      ensures this.files == files && this.folders == folders && this.moveSucceeds == moveSucceeds
    {
      this.files := files;
      this.folders := folders;
      this.moveSucceeds := moveSucceeds;
    }

    /**
     * `path.mkdir(parents=True, exist_ok=True)`: it raises (`ok` false, nothing made)
     * when the path or one of its ancestors is a regular file; otherwise every
     * missing folder on the way is made.
     */
    method MakeDirs(folder: Path) returns (ok: bool)
      requires Valid()
      modifies this`folders
      ensures Valid()
      ensures ok == (Ancestry(folder) !! files)
      ensures folders == if ok then old(folders) + Ancestry(folder) else old(folders)
    {
      ok := Ancestry(folder) !! files;
      if ok {
        folders := folders + Ancestry(folder);
      }
    }

    /**
     * `shutil.move(src, dest)` for a target that is not a folder: it succeeds when the
     * source exists and the move itself does; then the file is at `dest` and no longer at `src`.
     */
    method Move(src: Path, dest: Path) returns (ok: bool)
      requires Valid() && dest !in folders
      modifies this`files
      ensures Valid()
      ensures ok == (src in old(files) && moveSucceeds(src, dest))
      ensures files == if ok then old(files) - {src} + {dest} else old(files)
    {
      ok := src in files && moveSucceeds(src, dest);
      if ok {
        files := files - {src} + {dest};
      }
    }

    /** `dir.iterdir()`: every entry of `dir` once, in an order the model leaves open. */
    method IterDir(dir: Path) returns (entries: seq<Entry>)
      ensures ListingOf(entries, files, folders, dir)
    {
      var rest := set p | p in files + folders && IsChildOf(p, dir);
      ghost var seen: set<Path> := {};
      entries := [];
      while rest != {}
        invariant rest !! seen
        invariant rest + seen == set p | p in files + folders && IsChildOf(p, dir)
        invariant DistinctPaths(entries)
        invariant forall e :: e in entries ==> e.path in seen && e.isFile == (e.path in files)
        invariant forall p :: p in seen ==> exists e :: e in entries && e.path == p
        decreases rest
      {
        var p :| p in rest;
        entries := entries + [Entry(p, p in files)];
        rest := rest - {p};
        seen := seen + {p};
      }
      forall p | (p in files || p in folders) && IsChildOf(p, dir)
        ensures exists e :: e in entries && e.path == p
      {
        assert p in seen;
      }
    }

    /** `scan_directory_for_files(dir)`: the regular files of `dir`, each once. */
    method ScanFiles(dir: Path) returns (found: seq<Path>)
      ensures Distinct(found)
      ensures forall p :: p in found <==> p in files && IsChildOf(p, dir)
    {
      var entries := IterDir(dir);
      found := [];
      var i := 0;
      while i < |entries|
        invariant 0 <= i <= |entries|
        invariant forall a, b :: 0 <= a < b < |found| ==> found[a] != found[b]
        invariant forall p :: p in found <==> exists k :: 0 <= k < i && entries[k].isFile && entries[k].path == p
      {
        if entries[i].isFile {
          assert forall k :: 0 <= k < i ==> entries[k].path != entries[i].path;
          assert entries[i].path !in found;
          found := found + [entries[i].path];
        }
        i := i + 1;
      }
    }
  }
}
