/**
 * `src/utils/file_ops.py`: the collision-free naming probe `resolve_file_conflict`
 * and `move_file`, plus the record of attempted moves that the two run loops keep.
 */
module FileOps {
  import opened Text
  import opened Paths
  import opened FileSystem
  import opened Statistics

  /** The k-th path the probe tries in `folder`: the file's own name, then `stem_k.suffix`. */
  function Candidate(folder: Path, name: string, k: nat): Path {
    folder + [if k == 0 then name else RenamedName(name, k)]
  }

  /** The probe never tries the same path twice. */
  lemma CandidatesDistinct(folder: Path, name: string, i: nat, j: nat)
    requires i != j
    ensures Candidate(folder, name, i) != Candidate(folder, name, j)
  {
    StemSuffixSplit(name);
    var ni, nj := Name(Candidate(folder, name, i)), Name(Candidate(folder, name, j));
    ChildParts(folder, ni);
    ChildParts(folder, nj);
    if i == 0 || j == 0 {
      assert |ni| != |nj|;
    } else {
      var a, b := Stem(name) + "_", Suffix(name);
      var x, y := NatToString(i), NatToString(j);
      ParseNatToString(i);
      ParseNatToString(j);
      assert x != y;
      assert ni == a + x + b && nj == a + y + b;
      if |x| == |y| {
        assert ni[|a|..|a| + |x|] == x && nj[|a|..|a| + |y|] == y;
      }
      assert ni != nj;
    }
  }

  /** The paths tried before the n-th one. */
  function Probed(folder: Path, name: string, n: nat): set<Path> {
    set j | 0 <= j < n :: Candidate(folder, name, j)
  }

  /**
   * `p` is the first candidate, in the order name, stem_1.suffix, stem_2.suffix, ...,
   * that does not exist; every one before it exists.
   */
  ghost predicate IsFirstFree(existing: set<Path>, folder: Path, name: string, p: Path) {
    exists k: nat :: p == Candidate(folder, name, k) && p !in existing
      && forall j :: 0 <= j < k ==> Candidate(folder, name, j) in existing
  }

  /** The first free candidate is unique: the probe's answer is determined by the existing paths. */
  lemma FirstFreeUnique(existing: set<Path>, folder: Path, name: string, p: Path, q: Path)
    requires IsFirstFree(existing, folder, name, p) && IsFirstFree(existing, folder, name, q)
    ensures p == q
  {
    var k: nat :| p == Candidate(folder, name, k) && p !in existing
      && forall j :: 0 <= j < k ==> Candidate(folder, name, j) in existing;
    var l: nat :| q == Candidate(folder, name, l) && q !in existing
      && forall j :: 0 <= j < l ==> Candidate(folder, name, j) in existing;
    assert !(k < l) && !(l < k);
  }

  /**
   * After the answer of the probe has been taken (it now exists), probing again for a
   * file of the same name in the same folder gives a different path: two files of one
   * name placed one after the other never collide.
   */
  lemma NextPlacementDiffers(existing: set<Path>, folder: Path, name: string, p: Path, q: Path)
    requires IsFirstFree(existing, folder, name, p)
    requires IsFirstFree(existing + {p}, folder, name, q)
    ensures q != p
    ensures exists k: nat, l: nat :: k < l && p == Candidate(folder, name, k) && q == Candidate(folder, name, l)
  {
    var k: nat :| p == Candidate(folder, name, k) && p !in existing
      && forall j :: 0 <= j < k ==> Candidate(folder, name, j) in existing;
    var l: nat :| q == Candidate(folder, name, l) && q !in existing + {p}
      && forall j :: 0 <= j < l ==> Candidate(folder, name, j) in existing + {p};
    assert !(l < k);
    assert k < l;
  }

  /**
   * `resolve_file_conflict(src, destination_folder)`: a path in `folder` named like `src`
   * that does not exist, found by trying `name`, `stem_1.suffix`, `stem_2.suffix`, ...
   * `existing` is the set of paths for which `exists()` holds; it is only read.
   */
  method ResolveFileConflict(src: Path, folder: Path, existing: set<Path>) returns (safe: Path)
    ensures safe !in existing
    ensures IsChildOf(safe, folder) && Parent(safe) == folder
    ensures folder + [Name(src)] !in existing ==> safe == folder + [Name(src)]
    ensures IsFirstFree(existing, folder, Name(src), safe)
    ensures Suffix(Name(src)) != "" ==> Suffix(Name(safe)) == Suffix(Name(src))
  {
    var name := Name(src);
    safe := folder + [name];
    var counter := 1;
    while safe in existing
      invariant counter >= 1
      invariant safe == Candidate(folder, name, counter - 1)
      invariant forall j :: 0 <= j < counter - 1 ==> Candidate(folder, name, j) in existing
      decreases existing - Probed(folder, name, counter - 1)
    {
      forall j | 0 <= j < counter - 1
        ensures Candidate(folder, name, j) != Candidate(folder, name, counter - 1)
      {
        CandidatesDistinct(folder, name, j, counter - 1);
      }
      assert Probed(folder, name, counter) == Probed(folder, name, counter - 1) + {safe};
      safe := folder + [RenamedName(name, counter)];
      counter := counter + 1;
    }
    ChildParts(folder, Name(safe));
    assert safe == folder + [Name(safe)];
    if counter > 1 && Suffix(name) != "" {
      RenamedKeepsSuffix(name, counter - 1);
    }
  }

  /**
   * The target of a move is one of the probe's candidates for the file's own name in the
   * target's folder: the name itself, or `stem_k.suffix`.
   */
  ghost predicate NamedAfter(src: Path, dest: Path) {
    exists k: nat :: dest == Candidate(Parent(dest), Name(src), k)
  }

  /** The probe's answer in `folder` lies in `folder` and is named after the file. */
  lemma FirstFreeNamedAfter(existing: set<Path>, folder: Path, src: Path, dest: Path)
    requires IsFirstFree(existing, folder, Name(src), dest)
    ensures Parent(dest) == folder && NamedAfter(src, dest)
  {
    var k: nat :| dest == Candidate(folder, Name(src), k) && dest !in existing
      && forall j :: 0 <= j < k ==> Candidate(folder, Name(src), j) in existing;
    ChildParts(folder, if k == 0 then Name(src) else RenamedName(Name(src), k));
  }

  /** Every folder `mkdir(parents=True)` makes for the parent of `p` is shorter than `p`. */
  lemma ParentAncestryShorter(p: Path)
    ensures forall q :: q in Ancestry(Parent(p)) ==> |q| < |p|
  {
  }

  /**
   * `move_file(src, dest)`: make the parent folder, then `shutil.move`; `ok` is false
   * exactly when one of the two raises, which the callers catch.
   */
  method MoveFile(disk: Disk, src: Path, dest: Path) returns (ok: bool)
    requires disk.Valid() && !disk.Exists(dest)
    modifies disk
    ensures disk.Valid()
    ensures ok == (Ancestry(Parent(dest)) !! old(disk.files) && src in old(disk.files) && disk.moveSucceeds(src, dest))
    ensures disk.files == if ok then old(disk.files) - {src} + {dest} else old(disk.files)
    ensures disk.folders == old(disk.folders) + (if Ancestry(Parent(dest)) !! old(disk.files) then Ancestry(Parent(dest)) else {})
  {
    ok := disk.MakeDirs(Parent(dest));
    if ok {
      ParentAncestryShorter(dest);
      ok := disk.Move(src, dest);
    }
  }

  /**
   * One attempted move of a run: the file, the collision-free target, whether the move
   * succeeded, and the statistics key the run credits for it.
   */
  datatype MoveEvent = MoveEvent(src: Path, dest: Path, moved: bool, bucket: string)

  /** The files that left their place. */
  function MovedSources(trace: seq<MoveEvent>): set<Path> {
    set i | 0 <= i < |trace| && trace[i].moved :: trace[i].src
  }

  /** The targets that were filled. */
  function MovedTargets(trace: seq<MoveEvent>): set<Path> {
    set i | 0 <= i < |trace| && trace[i].moved :: trace[i].dest
  }

  /** The number of successful moves. */
  function MovedCount(trace: seq<MoveEvent>): nat {
    if trace == [] then 0
    else MovedCount(trace[..|trace| - 1]) + (if trace[|trace| - 1].moved then 1 else 0)
  }

  /** The number of successful moves credited to `key`. */
  function MovedCountFor(trace: seq<MoveEvent>, key: string): nat {
    if trace == [] then 0
    else MovedCountFor(trace[..|trace| - 1], key) + (if trace[|trace| - 1].moved && trace[|trace| - 1].bucket == key then 1 else 0)
  }

  /** The number of attempts credited to `key`, successful or not. */
  function AttemptCountFor(trace: seq<MoveEvent>, key: string): nat {
    if trace == [] then 0
    else AttemptCountFor(trace[..|trace| - 1], key) + (if trace[|trace| - 1].bucket == key then 1 else 0)
  }

  /** No two files were moved to one target. */
  ghost predicate TargetsDistinct(trace: seq<MoveEvent>) {
    forall i, j :: 0 <= i < j < |trace| && trace[i].moved && trace[j].moved ==> trace[i].dest != trace[j].dest
  }

  /** The regular files once the moves of `trace` are done: the moved sources are gone, the moved targets there. */
  ghost function FilesAfter(before: set<Path>, trace: seq<MoveEvent>): set<Path> {
    (before - MovedSources(trace)) + MovedTargets(trace)
  }

  /**
   * The folders `move_file` asks `mkdir(parents=True)` for, over the attempts of `trace`:
   * the parent of each target and every folder above it.
   */
  function FoldersOf(trace: seq<MoveEvent>): set<Path> {
    if trace == [] then {}
    else FoldersOf(trace[..|trace| - 1]) + Ancestry(Parent(trace[|trace| - 1].dest))
  }

  /**
   * The folders actually made over the attempts of `trace`, starting from the files
   * `before`: an attempt's folders are made only when no regular file lies on their
   * path at the time of the attempt, after the moves that came before it.
   */
  ghost function FoldersMade(before: set<Path>, trace: seq<MoveEvent>): set<Path> {
    if trace == [] then {}
    else
      var init, e := trace[..|trace| - 1], trace[|trace| - 1];
      FoldersMade(before, init)
        + (if Ancestry(Parent(e.dest)) !! FilesAfter(before, init) then Ancestry(Parent(e.dest)) else {})
  }

  /** One more attempt asks for its own folders, and makes them when nothing blocks them. */
  lemma FoldersAppend(before: set<Path>, trace: seq<MoveEvent>, e: MoveEvent)
    ensures FoldersOf(trace + [e]) == FoldersOf(trace) + Ancestry(Parent(e.dest))
    ensures FoldersMade(before, trace + [e]) == FoldersMade(before, trace)
      + (if Ancestry(Parent(e.dest)) !! FilesAfter(before, trace) then Ancestry(Parent(e.dest)) else {})
  {
    assert (trace + [e])[..|trace|] == trace;
  }

  /**
   * Every attempt of `trace` found its folder's path free of regular files, in the files
   * left by the attempts before it: where `mkdir` raises, no attempt follows.
   */
  ghost predicate AttemptsUnblocked(before: set<Path>, trace: seq<MoveEvent>) {
    trace == [] ||
      var init, e := trace[..|trace| - 1], trace[|trace| - 1];
      AttemptsUnblocked(before, init) && Ancestry(Parent(e.dest)) !! FilesAfter(before, init)
  }

  /** An attempt whose folder's path is free extends a trace of such attempts. */
  lemma UnblockedStep(before: set<Path>, trace: seq<MoveEvent>, e: MoveEvent)
    requires AttemptsUnblocked(before, trace)
    requires Ancestry(Parent(e.dest)) !! FilesAfter(before, trace)
    ensures AttemptsUnblocked(before, trace + [e])
  {
    assert (trace + [e])[..|trace|] == trace;
  }

  /** The `t`-th attempt of an unblocked trace found its folder's path free, after the attempts before it. */
  lemma {:induction false} UnblockedAt(before: set<Path>, trace: seq<MoveEvent>, t: nat)
    requires AttemptsUnblocked(before, trace) && t < |trace|
    ensures Ancestry(Parent(trace[t].dest)) !! FilesAfter(before, trace[..t])
  {
    var init := trace[..|trace| - 1];
    if t < |init| {
      UnblockedAt(before, init, t);
      assert init[t] == trace[t] && init[..t] == trace[..t];
    }
  }

  /** An attempt into an existing folder, with the files accounted for, extends a trace of unblocked attempts. */
  lemma UnblockedInto(before: set<Path>, files: set<Path>, folders: set<Path>, trace: seq<MoveEvent>, e: MoveEvent)
    requires AttemptsUnblocked(before, trace) && Accounted(before, files, trace)
    requires files !! folders && Ancestry(Parent(e.dest)) <= folders
    ensures AttemptsUnblocked(before, trace + [e])
  {
    UnblockedStep(before, trace, e);
  }

  /** Adding folders that already exist changes nothing. */
  lemma UnionWithin(folders: set<Path>, added: set<Path>)
    requires added <= folders
    ensures folders + added == folders
  {
  }

  /** Adding the same folders to both sides keeps a union equal. */
  lemma UnionShift(base: set<Path>, before: set<Path>, after: set<Path>, asked: set<Path>, asked2: set<Path>,
                   added: set<Path>)
    requires before == base + asked && after == before + added && asked2 == asked + added
    ensures after == base + asked2
  {
  }

  /** Attempts into one folder, at least one of them, ask for that folder and nothing else. */
  lemma {:induction false} FoldersOfInto(trace0: seq<MoveEvent>, trace: seq<MoveEvent>, folder: Path)
    requires |trace0| < |trace| && trace[..|trace0|] == trace0
    requires forall t :: |trace0| <= t < |trace| ==> Parent(trace[t].dest) == folder
    ensures FoldersOf(trace) == FoldersOf(trace0) + Ancestry(folder)
    decreases |trace|
  {
    var init, e := trace[..|trace| - 1], trace[|trace| - 1];
    assert trace == init + [e];
    FoldersAppend({}, init, e);
    assert Parent(e.dest) == folder;
    if |init| == |trace0| {
      assert init == trace[..|trace0|];
    } else {
      assert init[..|trace0|] == trace0;
      forall t | |trace0| <= t < |init| ensures Parent(init[t].dest) == folder {
        assert init[t] == trace[t];
      }
      FoldersOfInto(trace0, init, folder);
    }
  }

  /** Every attempt's folders are among those asked for. */
  lemma {:induction false} FoldersOfHas(trace: seq<MoveEvent>, t: nat)
    requires t < |trace|
    ensures Ancestry(Parent(trace[t].dest)) <= FoldersOf(trace)
  {
    if t < |trace| - 1 {
      FoldersOfHas(trace[..|trace| - 1], t);
      assert trace[..|trace| - 1][t] == trace[t];
    }
  }

  /** No folder is made that was not asked for. */
  lemma {:induction false} FoldersMadeWithin(before: set<Path>, trace: seq<MoveEvent>)
    ensures FoldersMade(before, trace) <= FoldersOf(trace)
  {
    if trace != [] {
      FoldersMadeWithin(before, trace[..|trace| - 1]);
    }
  }

  /**
   * The regular files `after` are those of `before`, minus the moved sources, plus the
   * moved targets; no target landed on a file that was still in place, and no two on one path.
   */
  ghost predicate Accounted(before: set<Path>, after: set<Path>, trace: seq<MoveEvent>) {
    && after == FilesAfter(before, trace)
    && MovedTargets(trace) !! (before - MovedSources(trace))
    && TargetsDistinct(trace)
  }

  /**
   * One more attempt keeps the account, provided the source still waits in place
   * (`pending`) and the target does not exist; the files still waiting stay in place.
   */
  lemma AccountedStep(before: set<Path>, files: set<Path>, trace: seq<MoveEvent>, pending: set<Path>,
                      e: MoveEvent, after: set<Path>)
    requires Accounted(before, files, trace)
    requires pending <= files && pending !! MovedTargets(trace)
    requires e.src in pending && e.dest !in files
    requires after == if e.moved then files - {e.src} + {e.dest} else files
    ensures Accounted(before, after, trace + [e])
    ensures pending - {e.src} <= after && (pending - {e.src}) !! MovedTargets(trace + [e])
  {
    var t := trace + [e];
    assert forall i :: 0 <= i < |trace| ==> t[i] == trace[i];
    assert t[|trace|] == e;
    if e.moved {
      forall x | x in MovedSources(trace) ensures x in MovedSources(t) {
        var i :| 0 <= i < |trace| && trace[i].moved && trace[i].src == x;
        assert t[i] == trace[i];
      }
      forall x | x in MovedTargets(trace) ensures x in MovedTargets(t) {
        var i :| 0 <= i < |trace| && trace[i].moved && trace[i].dest == x;
        assert t[i] == trace[i];
      }
      assert MovedSources(t) == MovedSources(trace) + {e.src};
      assert MovedTargets(t) == MovedTargets(trace) + {e.dest};
      forall i, j | 0 <= i < j < |t| && t[i].moved && t[j].moved
        ensures t[i].dest != t[j].dest
      {
        if j == |trace| {
          assert t[i].dest in MovedTargets(trace);
        }
      }
    } else {
      forall x | x in MovedSources(trace) ensures x in MovedSources(t) {
        var i :| 0 <= i < |trace| && trace[i].moved && trace[i].src == x;
        assert t[i] == trace[i];
      }
      forall x | x in MovedTargets(trace) ensures x in MovedTargets(t) {
        var i :| 0 <= i < |trace| && trace[i].moved && trace[i].dest == x;
        assert t[i] == trace[i];
      }
      assert MovedSources(t) == MovedSources(trace);
      assert MovedTargets(t) == MovedTargets(trace);
    }
  }

  /** Nothing attempted, nothing changed. */
  lemma AccountedEmpty(files: set<Path>)
    ensures Accounted(files, files, [])
  {
  }

  lemma MovedCountAppend(trace: seq<MoveEvent>, e: MoveEvent, key: string)
    ensures MovedCount(trace + [e]) == MovedCount(trace) + (if e.moved then 1 else 0)
    ensures MovedCountFor(trace + [e], key) == MovedCountFor(trace, key) + (if e.moved && e.bucket == key then 1 else 0)
    ensures AttemptCountFor(trace + [e], key) == AttemptCountFor(trace, key) + (if e.bucket == key then 1 else 0)
  {
    assert (trace + [e])[..|trace|] == trace;
  }

  /** Every file the run tried to move, moved or not. */
  function Sources(trace: seq<MoveEvent>): set<Path> {
    set i | 0 <= i < |trace| :: trace[i].src
  }

  /** No file was tried twice. */
  predicate SourcesDistinct(trace: seq<MoveEvent>) {
    forall i, j :: 0 <= i < j < |trace| ==> trace[i].src != trace[j].src
  }

  /** A file not tried before, tried now, keeps the sources distinct and adds itself to them. */
  lemma SourcesStep(trace: seq<MoveEvent>, e: MoveEvent)
    requires SourcesDistinct(trace) && e.src !in Sources(trace)
    ensures SourcesDistinct(trace + [e]) && Sources(trace + [e]) == Sources(trace) + {e.src}
  {
    var t := trace + [e];
    forall x | x in Sources(trace) ensures x in Sources(t) {
      var i :| 0 <= i < |trace| && trace[i].src == x;
      assert t[i] == trace[i];
    }
    assert t[|trace|] == e;
    forall i, j | 0 <= i < j < |t| ensures t[i].src != t[j].src {
      if j == |trace| {
        assert t[i].src in Sources(trace);
      } else {
        assert t[i] == trace[i] && t[j] == trace[j];
      }
    }
  }

  /**
   * One turn of the two placement loops: pick the collision-free target in `folder`,
   * try the move, and on success add one to `stats[key]`. A failed move, caught by the
   * loop, changes neither the files nor the statistics, and the loop goes on.
   * `pending` are the files the loop has still to place; they stay where they are.
   */
  method PlaceFile(disk: Disk, stats: Stats, src: Path, folder: Path, key: string,
                   ghost before: set<Path>, ghost trace: seq<MoveEvent>, ghost pending: set<Path>)
    returns (e: MoveEvent)
    requires disk.Valid() && stats.Valid()
    requires Accounted(before, disk.files, trace)
    requires pending <= disk.files && pending !! MovedTargets(trace) && src in pending
    modifies disk, stats
    ensures disk.Valid() && stats.Valid()
    ensures e.src == src && e.bucket == key
    ensures IsFirstFree(old(disk.files + disk.folders), folder, Name(src), e.dest)
    ensures IsChildOf(e.dest, folder) && Parent(e.dest) == folder
    ensures e.moved == (Ancestry(folder) !! old(disk.files) && disk.moveSucceeds(src, e.dest))
    ensures Accounted(before, disk.files, trace + [e])
    ensures pending - {src} <= disk.files && (pending - {src}) !! MovedTargets(trace + [e])
    ensures disk.folders == old(disk.folders) + (if Ancestry(folder) !! old(disk.files) then Ancestry(folder) else {})
    ensures forall k :: stats.Get(k) == old(stats.Get(k)) + (if e.moved && k == key then 1 else 0)
    ensures stats.Total() == old(stats.Total()) + (if e.moved then 1 else 0)
    ensures stats.Total() + MovedCount(trace) == old(stats.Total()) + MovedCount(trace + [e])
    ensures forall k :: stats.Get(k) + MovedCountFor(trace, k) == old(stats.Get(k)) + MovedCountFor(trace + [e], k)
  {
    var safe := ResolveFileConflict(src, folder, disk.files + disk.folders);
    var ok := MoveFile(disk, src, safe);
    e := MoveEvent(src, safe, ok, key);
    AccountedStep(before, old(disk.files), trace, pending, e, disk.files);
    if ok {
      stats.Increment(key);
    }
    forall k ensures MovedCountFor(trace + [e], k) == MovedCountFor(trace, k) + (if e.moved && e.bucket == k then 1 else 0) {
      MovedCountAppend(trace, e, k);
    }
    MovedCountAppend(trace, e, key);
  }

  /** When every attempt is credited to one key, that key counts every move and no other key counts any. */
  lemma {:induction false} MovedCountOneKey(trace: seq<MoveEvent>, key: string)
    requires forall t :: 0 <= t < |trace| ==> trace[t].bucket == key
    ensures MovedCountFor(trace, key) == MovedCount(trace)
    ensures forall k :: k != key ==> MovedCountFor(trace, k) == 0
  {
    if trace != [] {
      MovedCountOneKey(trace[..|trace| - 1], key);
    }
  }

  /** A key no attempt is credited to counts no move. */
  lemma {:induction false} MovedCountForNone(trace: seq<MoveEvent>, key: string)
    requires forall t :: 0 <= t < |trace| ==> trace[t].bucket != key
    ensures MovedCountFor(trace, key) == 0
  {
    if trace != [] {
      MovedCountForNone(trace[..|trace| - 1], key);
    }
  }
}
