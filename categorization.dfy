/**
 * `src/utils/categorization.py`: which files are images, the two image counters,
 * the grouping of a folder's images by capture day, the extension table lookup,
 * and `organize_images_by_day`, which files every dated image under
 * `File_Triage/Images/<year>/<month>[/<day>]`.
 */
module Categorization {
  import opened Wrappers
  import opened Text
  import opened Paths
  import opened DateUtils
  import opened FileSystem
  import opened Statistics
  import opened FileOps

  /** The extensions, lower case and without the dot, that make a file an image. */
  const ImageExtensions: seq<string> := ["jpg", "jpeg", "png"]

  /** `name`'s suffix, without its dot and lower-cased, is an image extension. */
  predicate IsImageName(name: string) {
    Lower(Extension(name)) in ImageExtensions
  }

  predicate IsImage(p: Path) {
    IsImageName(Name(p))
  }

  /** Whether a file is an image does not depend on the case of its name. */
  lemma IsImageIgnoresCase(name: string)
    ensures IsImageName(Lower(name)) == IsImageName(name)
  {
    LowerExtension(name);
    LowerIdempotent(Extension(name));
  }

  /**
   * The conflict resolver never turns an image into a non-image or back: a renamed
   * file keeps its suffix, and a name without a suffix gains at most one ending in a digit.
   */
  lemma {:induction false} CandidateKeepsKind(folder: Path, name: string, k: nat)
    ensures IsImage(Candidate(folder, name, k)) == IsImageName(name)
  {
    var n := if k == 0 then name else RenamedName(name, k);
    ChildParts(folder, n);
    if k > 0 {
      if Suffix(name) != "" {
        RenamedKeepsSuffix(name, k);
      } else {
        RenamedSuffixEndsInDigit(name, k);
        var s := Suffix(n);
        if s != "" {
          var x := Lower(Extension(n));
          assert x == Lower(s[1..]);
          assert IsDigit(x[|x| - 1]);
          assert x != "jpg" && x != "jpeg" && x != "png";
        }
      }
    }
  }

  /** The first free candidate for a file is an image exactly when the file is one. */
  lemma FirstFreeKeepsKind(existing: set<Path>, folder: Path, name: string, p: Path)
    requires IsFirstFree(existing, folder, name, p)
    ensures IsImage(p) == IsImageName(name)
  {
    var k: nat :| p == Candidate(folder, name, k) && p !in existing
      && forall j :: 0 <= j < k ==> Candidate(folder, name, j) in existing;
    CandidateKeepsKind(folder, name, k);
  }

  /** The number of paths of `files` that satisfy `f`. */
  function CountIf(files: seq<Path>, f: Path -> bool): (n: nat)
    ensures n <= |files|
  {
    if files == [] then 0
    else CountIf(files[..|files| - 1], f) + (if f(files[|files| - 1]) then 1 else 0)
  }

  /** The distinct paths of `files` that satisfy `f`. */
  ghost function Satisfying(files: seq<Path>, f: Path -> bool): set<Path> {
    set p | p in files && f(p)
  }

  /** `count_image_in_list`: how many paths of the list are images. */
  function CountImageInList(files: seq<Path>): (n: nat)
    ensures n <= |files|
  {
    CountIf(files, IsImage)
  }

  /** The count is the whole list exactly when every path is an image, and 0 exactly when none is. */
  lemma CountImageInListExtremes(files: seq<Path>)
    ensures CountImageInList(files) == |files| <==> forall i :: 0 <= i < |files| ==> IsImage(files[i])
    ensures CountImageInList(files) == 0 <==> forall i :: 0 <= i < |files| ==> !IsImage(files[i])
  {
    CountIfAll(files, IsImage);
    CountIfNone(files, IsImage);
  }

  lemma {:induction false} CountIfAll(files: seq<Path>, f: Path -> bool)
    ensures CountIf(files, f) == |files| <==> forall i :: 0 <= i < |files| ==> f(files[i])
  {
    if files != [] {
      var init := files[..|files| - 1];
      CountIfAll(init, f);
      assert forall i :: 0 <= i < |init| ==> files[i] == init[i];
    }
  }

  lemma {:induction false} CountIfNone(files: seq<Path>, f: Path -> bool)
    ensures CountIf(files, f) == 0 <==> forall i :: 0 <= i < |files| ==> !f(files[i])
  {
    if files != [] {
      var init := files[..|files| - 1];
      CountIfNone(init, f);
      assert forall i :: 0 <= i < |init| ==> files[i] == init[i];
    }
  }

  /** On a list without repetition the count is the number of image paths in it. */
  lemma CountImageInListCard(files: seq<Path>)
    requires Distinct(files)
    ensures CountImageInList(files) == |Satisfying(files, IsImage)|
  {
    CountIfCard(files, IsImage);
  }

  lemma {:induction false} CountIfCard(files: seq<Path>, f: Path -> bool)
    requires Distinct(files)
    ensures CountIf(files, f) == |Satisfying(files, f)|
  {
    if files != [] {
      var init, last := files[..|files| - 1], files[|files| - 1];
      CountIfCard(init, f);
      var before := Satisfying(init, f);
      assert last !in before by {
        assert last !in init;
      }
      if f(last) {
        assert Satisfying(files, f) == before + {last};
      } else {
        assert Satisfying(files, f) == before;
      }
    }
  }

  /** Counting a concatenation adds the counts. */
  lemma CountImageInListAppend(a: seq<Path>, b: seq<Path>)
    ensures CountImageInList(a + b) == CountImageInList(a) + CountImageInList(b)
  {
    CountIfAppend(a, b, IsImage);
  }

  lemma {:induction false} CountIfAppend(a: seq<Path>, b: seq<Path>, f: Path -> bool)
    ensures CountIf(a + b, f) == CountIf(a, f) + CountIf(b, f)
    decreases |b|
  {
    if b != [] {
      var b' := b[..|b| - 1];
      assert (a + b)[..|a + b| - 1] == a + b';
      CountIfAppend(a, b', f);
      assert (a + b)[|a + b| - 1] == b[|b| - 1];
    } else {
      assert a + b == a;
    }
  }

  /** Upper-case extensions count: `IMG.JPG` is an image, `notes.txt` is not. */
  lemma CountImageUpperCase()
    ensures CountImageInList([["IMG.JPG"], ["notes.txt"]]) == 1
  {
    assert LastDot("IMG.JPG") == 3 by {
      LastDotIs("IMG.JPG", 3);
    }
    assert LastDot("notes.txt") == 5 by {
      LastDotIs("notes.txt", 5);
    }
    assert Extension("IMG.JPG") == "JPG";
    assert Lower("JPG") == "jpg";
    assert IsImage(["IMG.JPG"]);
    assert Extension("notes.txt") == "txt";
    assert Lower("txt") == "txt";
    assert !IsImage(["notes.txt"]);
    var l := [["IMG.JPG"], ["notes.txt"]];
    assert l[..1] == [["IMG.JPG"]] && l[..1][..0] == [];
  }

  /** The comparison `count_image_in_directory` makes in mode `mode`. */
  predicate DateMatches(t: ValidDateTime, target: ValidDateTime, mode: string) {
    || (mode == "day" && DateOf(t) == DateOf(target))
    || (mode == "month" && t.year == target.year && t.month == target.month)
  }

  /** The regular image files of `dir` with a capture date that matches `target` in `mode`. */
  ghost function ImagesMatching(files: set<Path>, dir: Path, dates: DateSource, target: ValidDateTime, mode: string): set<Path> {
    set p | p in files && IsChildOf(p, dir) && IsImage(p) && DateTaken(dates, p).Some?
      && DateMatches(DateTaken(dates, p).value, target, mode)
  }

  /** The entry test in the loop of `count_image_in_directory`. */
  predicate Qualifies(e: Entry, dates: DateSource, target: ValidDateTime, mode: string) {
    e.isFile && IsImage(e.path) && DateTaken(dates, e.path).Some?
    && DateMatches(DateTaken(dates, e.path).value, target, mode)
  }

  /**
   * `count_image_in_directory(dir, target, mode)`: 0 when `dir` does not exist, otherwise
   * the number of dated images of `dir` whose date matches `target` in `mode`.
   * `iterdir` raises on a regular file, which the code does not catch; hence the requirement.
   */
  method CountImageInDirectory(disk: Disk, dir: Path, target: ValidDateTime, mode: string, dates: DateSource)
    returns (count: nat)
    requires dir !in disk.files
    ensures count == if disk.Exists(dir) then |ImagesMatching(disk.files, dir, dates, target, mode)| else 0
  {
    if !disk.Exists(dir) {
      return 0;
    }
    var entries := disk.IterDir(dir);
    count := 0;
    ghost var counted: set<Path> := {};
    var i := 0;
    while i < |entries|
      invariant 0 <= i <= |entries|
      invariant count == |counted|
      invariant CountedUpTo(entries, i, dates, target, mode, counted)
    {
      var matches := EntryMatches(entries[i], dates, target, mode);
      CountedStep(entries, i, dates, target, mode, counted);
      if matches {
        count := count + 1;
        counted := counted + {entries[i].path};
      }
      i := i + 1;
    }
    ListedMatches(entries, disk.files, disk.folders, dir, dates, target, mode, counted);
  }

  /**
   * The body of the loop of `count_image_in_directory` for one entry: a regular image
   * file, whose date is defined, and matches `target` by day or by month.
   */
  method EntryMatches(e: Entry, dates: DateSource, target: ValidDateTime, mode: string) returns (matches: bool)
    ensures matches == Qualifies(e, dates, target, mode)
  {
    matches := false;
    if e.isFile && IsImage(e.path) {
      var fileDate := DateTaken(dates, e.path);
      if fileDate.None? {
        return;
      }
      if mode == "day" && DateOf(fileDate.value) == DateOf(target) {
        matches := true;
      } else if mode == "month" && fileDate.value.year == target.year && fileDate.value.month == target.month {
        matches := true;
      }
    }
  }

  /** `counted` holds the paths of the qualifying entries among the first `i`. */
  ghost predicate CountedUpTo(entries: seq<Entry>, i: nat, dates: DateSource, target: ValidDateTime, mode: string, counted: set<Path>)
    requires i <= |entries|
  {
    forall p :: p in counted <==> exists k :: 0 <= k < i && entries[k].path == p && Qualifies(entries[k], dates, target, mode)
  }

  lemma CountedStep(entries: seq<Entry>, i: nat, dates: DateSource, target: ValidDateTime, mode: string, counted: set<Path>)
    requires i < |entries| && DistinctPaths(entries)
    requires CountedUpTo(entries, i, dates, target, mode, counted)
    ensures entries[i].path !in counted
    ensures CountedUpTo(entries, i + 1, dates, target, mode,
      if Qualifies(entries[i], dates, target, mode) then counted + {entries[i].path} else counted)
  {
    var next := if Qualifies(entries[i], dates, target, mode) then counted + {entries[i].path} else counted;
    forall k | 0 <= k < i ensures entries[k].path != entries[i].path { }
    forall p ensures p in next <==> exists k :: 0 <= k < i + 1 && entries[k].path == p && Qualifies(entries[k], dates, target, mode) {
      if p == entries[i].path {
        assert p !in counted;
      }
    }
  }

  /** The qualifying entries of a listing of `dir` are the matching images of `dir`. */
  lemma ListedMatches(entries: seq<Entry>, files: set<Path>, folders: set<Path>, dir: Path, dates: DateSource,
                      target: ValidDateTime, mode: string, counted: set<Path>)
    requires ListingOf(entries, files, folders, dir)
    requires CountedUpTo(entries, |entries|, dates, target, mode, counted)
    ensures counted == ImagesMatching(files, dir, dates, target, mode)
  {
    forall p | p in ImagesMatching(files, dir, dates, target, mode) ensures p in counted {
      var e :| e in entries && e.path == p;
      var k :| 0 <= k < |entries| && entries[k] == e;
    }
  }

  /** A mode other than "day" and "month" matches nothing. */
  lemma OtherModeCountsNothing(files: set<Path>, dir: Path, dates: DateSource, target: ValidDateTime, mode: string)
    requires mode != "day" && mode != "month"
    ensures ImagesMatching(files, dir, dates, target, mode) == {}
  {
  }

  /** The images of the target's day are among those of its month, so they are never more. */
  lemma DayCountAtMostMonthCount(files: set<Path>, dir: Path, dates: DateSource, target: ValidDateTime)
    ensures ImagesMatching(files, dir, dates, target, "day") <= ImagesMatching(files, dir, dates, target, "month")
    ensures |ImagesMatching(files, dir, dates, target, "day")| <= |ImagesMatching(files, dir, dates, target, "month")|
  {
    SubsetCard(ImagesMatching(files, dir, dates, target, "day"), ImagesMatching(files, dir, dates, target, "month"));
  }

  lemma SubsetCard(a: set<Path>, b: set<Path>)
    requires a <= b
    ensures |a| <= |b|
  {
    assert b == a + (b - a);
    assert a * (b - a) == {};
  }

  /** The calendar day `p` was taken, if it has a capture date. */
  function DayTaken(dates: DateSource, p: Path): Option<ValidDate> {
    match DateTaken(dates, p)
    case None => None
    case Some(t) => Some(DateOf(t))
  }

  /** The calendar day an entry is grouped under: only dated regular image files have one. */
  function DayOf(dates: DateSource, e: Entry): Option<ValidDate> {
    if e.isFile && IsImage(e.path) then DayTaken(dates, e.path) else None
  }

  /** The paths of the entries grouped under `d`, in listing order: the reference for a bucket. */
  function Matching(entries: seq<Entry>, d: ValidDate, dates: DateSource): seq<Path> {
    if entries == [] then []
    else
      var last := entries[|entries| - 1];
      Matching(entries[..|entries| - 1], d, dates) + (if DayOf(dates, last) == Some(d) then [last.path] else [])
  }

  lemma {:induction false} MatchingMembers(entries: seq<Entry>, d: ValidDate, dates: DateSource)
    ensures forall p :: p in Matching(entries, d, dates) <==> exists e :: e in entries && e.path == p && DayOf(dates, e) == Some(d)
  {
    if entries != [] {
      var init := entries[..|entries| - 1];
      MatchingMembers(init, d, dates);
      assert entries == init + [entries[|entries| - 1]];
    }
  }

  lemma {:induction false} MatchingDistinct(entries: seq<Entry>, d: ValidDate, dates: DateSource)
    requires DistinctPaths(entries)
    ensures Distinct(Matching(entries, d, dates))
  {
    if entries != [] {
      var init, last := entries[..|entries| - 1], entries[|entries| - 1];
      MatchingDistinct(init, d, dates);
      MatchingMembers(init, d, dates);
      if DayOf(dates, last) == Some(d) {
        forall e | e in init ensures e.path != last.path {
          var k :| 0 <= k < |init| && init[k] == e;
        }
        assert last.path !in Matching(init, d, dates);
      }
    }
  }

  /** The result of `group_image_by_day`: the days in first-seen order, and each day's files. */
  datatype Grouping = Grouping(days: seq<ValidDate>, buckets: map<ValidDate, seq<Path>>)

  /** One turn of the grouping loop: `image_by_day[date_taken.date()].append(f)` for a dated image. */
  function AddEntry(g: Grouping, e: Entry, dates: DateSource): Grouping {
    match DayOf(dates, e)
    case None => g
    case Some(d) =>
      if d in g.buckets then g.(buckets := g.buckets[d := g.buckets[d] + [e.path]])
      else Grouping(g.days + [d], g.buckets[d := [e.path]])
  }

  /** The grouping of a whole listing. */
  function GroupSpec(entries: seq<Entry>, dates: DateSource): Grouping {
    if entries == [] then Grouping([], map[])
    else AddEntry(GroupSpec(entries[..|entries| - 1], dates), entries[|entries| - 1], dates)
  }

  /** The days are listed once each, and exactly the days that have a bucket. */
  ghost predicate WellFormed(g: Grouping) {
    && (forall d :: d in g.days <==> d in g.buckets)
    && (forall i, j :: 0 <= i < j < |g.days| ==> g.days[i] != g.days[j])
  }

  /**
   * The grouping of a listing has a bucket exactly for the days some entry is grouped
   * under; that bucket holds those entries' paths in listing order, so it is never empty.
   */
  lemma {:induction false} GroupSpecIsMatching(entries: seq<Entry>, dates: DateSource)
    ensures WellFormed(GroupSpec(entries, dates))
    ensures forall d :: d in GroupSpec(entries, dates).buckets ==>
      GroupSpec(entries, dates).buckets[d] == Matching(entries, d, dates) && Matching(entries, d, dates) != []
    ensures forall d :: d !in GroupSpec(entries, dates).buckets ==> Matching(entries, d, dates) == []
  {
    if entries != [] {
      var init, last := entries[..|entries| - 1], entries[|entries| - 1];
      GroupSpecIsMatching(init, dates);
      var g := GroupSpec(init, dates);
      match DayOf(dates, last)
      case None =>
      case Some(d0) =>
        if d0 !in g.buckets {
          var days := g.days + [d0];
          forall i, j | 0 <= i < j < |days| ensures days[i] != days[j] {
            if j == |g.days| {
              assert days[i] == g.days[i];
              assert g.days[i] in g.days;
            }
          }
        }
    }
  }

  /**
   * `group_image_by_day` on the listing of its folder: each dated regular image goes to
   * the bucket of its capture day; everything else is skipped.
   */
  method GroupImageByDay(entries: seq<Entry>, dates: DateSource) returns (g: Grouping)
    ensures g == GroupSpec(entries, dates)
  {
    g := Grouping([], map[]);
    var i := 0;
    while i < |entries|
      invariant 0 <= i <= |entries|
      invariant g == GroupSpec(entries[..i], dates)
    {
      var f := entries[i];
      if f.isFile && IsImage(f.path) {
        var taken := DateTaken(dates, f.path);
        if taken.Some? {
          var day := DateOf(taken.value);
          if day in g.buckets {
            g := g.(buckets := g.buckets[day := g.buckets[day] + [f.path]]);
          } else {
            g := Grouping(g.days + [day], g.buckets[day := [f.path]]);
          }
        }
      }
      assert entries[..i + 1][..i] == entries[..i];
      i := i + 1;
    }
    assert entries[..|entries|] == entries;
  }

  /** The regular image files of `dir` that have a capture date. */
  ghost function DatedImages(files: set<Path>, dir: Path, dates: DateSource): set<Path> {
    set p | p in files && IsChildOf(p, dir) && IsImage(p) && DateTaken(dates, p).Some?
  }

  /** Those taken on day `d`. */
  ghost function DayBucket(files: set<Path>, dir: Path, dates: DateSource, d: ValidDate): set<Path> {
    set p | p in DatedImages(files, dir, dates) && DayTaken(dates, p) == Some(d)
  }

  /** The files of the buckets from the `i`-th day on. */
  ghost function Later(g: Grouping, i: nat): set<Path>
    requires forall d :: d in g.days ==> d in g.buckets
  {
    set t, p | i <= t < |g.days| && p in g.buckets[g.days[t]] :: p
  }

  /**
   * The buckets of `g` are the day buckets of the dated images of `dir`: one per day,
   * each non-empty, without repetition, holding exactly the images taken that day.
   */
  ghost predicate BucketsAreDays(g: Grouping, files: set<Path>, dir: Path, dates: DateSource) {
    && KeyedByDay(g, dates)
    && forall d :: d in g.buckets ==>
      && Distinct(g.buckets[d])
      && g.buckets[d] != []
      && (forall p :: p in g.buckets[d] <==> p in DayBucket(files, dir, dates, d))
      && |g.buckets[d]| == |DayBucket(files, dir, dates, d)|
  }

  /** Each day of `g` is listed once and has a bucket, which holds only files taken that day. */
  ghost predicate KeyedByDay(g: Grouping, dates: DateSource) {
    && WellFormed(g)
    && forall d :: d in g.buckets ==> forall p :: p in g.buckets[d] ==> DayTaken(dates, p) == Some(d)
  }

  /**
   * Grouping the listing of `dir` puts every dated image of `dir` in exactly one bucket,
   * the one of its capture day, once, and nothing else in any bucket.
   */
  lemma GroupingOfListing(entries: seq<Entry>, files: set<Path>, folders: set<Path>, dir: Path, dates: DateSource)
    requires ListingOf(entries, files, folders, dir)
    ensures BucketsAreDays(GroupSpec(entries, dates), files, dir, dates)
    ensures Later(GroupSpec(entries, dates), 0) == DatedImages(files, dir, dates)
  {
    var g := GroupSpec(entries, dates);
    GroupSpecIsMatching(entries, dates);
    forall d | d in g.buckets
      ensures Distinct(g.buckets[d])
      ensures forall p :: p in g.buckets[d] ==> DayTaken(dates, p) == Some(d)
      ensures forall p :: p in g.buckets[d] <==> p in DayBucket(files, dir, dates, d)
      ensures |g.buckets[d]| == |DayBucket(files, dir, dates, d)|
    {
      MatchingIsDayBucket(entries, files, folders, dir, dates, d);
    }
    LaterOfListing(entries, files, folders, dir, dates);
  }

  /** The entries of the listing grouped under `d` are the images of `dir` taken on `d`, each once. */
  lemma MatchingIsDayBucket(entries: seq<Entry>, files: set<Path>, folders: set<Path>, dir: Path, dates: DateSource, d: ValidDate)
    requires ListingOf(entries, files, folders, dir)
    ensures Distinct(Matching(entries, d, dates))
    ensures forall p :: p in Matching(entries, d, dates) ==> DayTaken(dates, p) == Some(d)
    ensures forall p :: p in Matching(entries, d, dates) <==> p in DayBucket(files, dir, dates, d)
    ensures |Matching(entries, d, dates)| == |DayBucket(files, dir, dates, d)|
  {
    var m := Matching(entries, d, dates);
    MatchingDistinct(entries, d, dates);
    MatchingMembers(entries, d, dates);
    forall p | p in DayBucket(files, dir, dates, d) ensures p in m {
      var e :| e in entries && e.path == p;
    }
    assert Elements(m) == DayBucket(files, dir, dates, d);
    DistinctCard(m);
  }

  /** Every dated image of `dir` lies in some bucket of the grouping of its listing. */
  lemma LaterOfListing(entries: seq<Entry>, files: set<Path>, folders: set<Path>, dir: Path, dates: DateSource)
    requires ListingOf(entries, files, folders, dir)
    requires forall d :: d in GroupSpec(entries, dates).buckets ==>
      forall p :: p in GroupSpec(entries, dates).buckets[d] <==> p in DayBucket(files, dir, dates, d)
    ensures WellFormed(GroupSpec(entries, dates))
    ensures Later(GroupSpec(entries, dates), 0) == DatedImages(files, dir, dates)
  {
    var g := GroupSpec(entries, dates);
    GroupSpecIsMatching(entries, dates);
    forall p | p in DatedImages(files, dir, dates) ensures p in Later(g, 0) {
      var d := DayTaken(dates, p).value;
      assert p in DayBucket(files, dir, dates, d);
      MatchingMembers(entries, d, dates);
      var e :| e in entries && e.path == p;
      assert DayOf(dates, e) == Some(d);
      assert p in Matching(entries, d, dates);
      assert d in g.buckets;
      var t :| 0 <= t < |g.days| && g.days[t] == d;
    }
  }

  /** What the image phase reads off one bucket: its first file's date falls on the bucket's day. */
  lemma BucketOfDay(g: Grouping, files: set<Path>, dir: Path, dates: DateSource, day: ValidDate)
    requires BucketsAreDays(g, files, dir, dates) && day in g.buckets
    ensures g.buckets[day] != [] && DateTaken(dates, g.buckets[day][0]).Some?
    ensures DateOf(DateTaken(dates, g.buckets[day][0]).value) == day
    ensures |g.buckets[day]| == |DayBucket(files, dir, dates, day)|
    ensures forall p :: p in g.buckets[day] ==> p in DayBucket(files, dir, dates, day)
  {
    assert g.buckets[day][0] in g.buckets[day];
    assert DayTaken(dates, g.buckets[day][0]) == Some(day);
  }

  /** The files of the `i`-th bucket and those of the later buckets: together `Later(g, i)`, and apart. */
  lemma LaterSplit(g: Grouping, i: nat, dates: DateSource)
    requires KeyedByDay(g, dates) && i < |g.days|
    ensures Later(g, i) == Elements(g.buckets[g.days[i]]) + Later(g, i + 1)
    ensures Elements(g.buckets[g.days[i]]) !! Later(g, i + 1)
  {
    var d := g.days[i];
    var here := Elements(g.buckets[d]);
    forall p | p in Later(g, i) ensures p in here || p in Later(g, i + 1) {
      var t :| i <= t < |g.days| && p in g.buckets[g.days[t]];
      if t != i {
        assert i + 1 <= t < |g.days| && p in g.buckets[g.days[t]];
      }
    }
    forall p | p in here ensures p in Later(g, i) {
      assert i <= i < |g.days| && p in g.buckets[g.days[i]];
    }
    forall p | p in Later(g, i + 1) ensures p in Later(g, i) && p !in here {
      var t :| i + 1 <= t < |g.days| && p in g.buckets[g.days[t]];
      assert i <= t < |g.days|;
      assert DayTaken(dates, p) == Some(g.days[t]);
      assert g.days[t] != d;
    }
  }

  /** Taking the next file of a bucket off the files still to place. */
  lemma BucketStep(bucket: seq<Path>, j: nat, later: set<Path>)
    requires Distinct(bucket) && j < |bucket| && Elements(bucket) !! later
    ensures bucket[j] in Elements(bucket[j..])
    ensures Elements(bucket[j..]) + later - {bucket[j]} == Elements(bucket[j + 1..]) + later
  {
    assert bucket[j..] == [bucket[j]] + bucket[j + 1..];
    assert bucket[j] !in bucket[j + 1..];
  }

  /** A move attempted by the inner loop: a file of `bucket`, into `folder`, credited to `key`, of the same kind. */
  ghost predicate PlacedInto(e: MoveEvent, bucket: seq<Path>, folder: Path, key: string) {
    e.src in bucket && e.bucket == key && Parent(e.dest) == folder && NamedAfter(e.src, e.dest)
    && IsImage(e.dest) == IsImage(e.src)
  }

  /** `trace` extends `trace0` by moves of files of `bucket` into `folder`. */
  ghost predicate ExtendsInto(trace0: seq<MoveEvent>, trace: seq<MoveEvent>, bucket: seq<Path>, folder: Path, key: string) {
    && |trace0| <= |trace| && trace[..|trace0|] == trace0
    && forall t :: |trace0| <= t < |trace| ==> PlacedInto(trace[t], bucket, folder, key)
  }

  /** Trying the `j`-th file of a bucket adds it to the files tried. */
  lemma BucketTraceStep(trace0: seq<MoveEvent>, trace: seq<MoveEvent>, e: MoveEvent, bucket: seq<Path>, j: nat)
    requires j < |bucket| && e.src == bucket[j]
    requires Sources(trace) == Sources(trace0) + Elements(bucket[..j]) && SourcesDistinct(trace) && e.src !in Sources(trace)
    ensures Sources(trace + [e]) == Sources(trace0) + Elements(bucket[..j + 1]) && SourcesDistinct(trace + [e])
  {
    SourcesStep(trace, e);
    assert bucket[..j + 1] == bucket[..j] + [e.src];
    assert Elements(bucket[..j + 1]) == Elements(bucket[..j]) + {e.src};
  }

  lemma ExtendsIntoStep(trace0: seq<MoveEvent>, trace: seq<MoveEvent>, e: MoveEvent, bucket: seq<Path>,
                        folder: Path, key: string)
    requires ExtendsInto(trace0, trace, bucket, folder, key) && PlacedInto(e, bucket, folder, key)
    ensures ExtendsInto(trace0, trace + [e], bucket, folder, key)
  {
    var t' := trace + [e];
    assert t'[..|trace0|] == trace[..|trace0|];
    forall t | |trace0| <= t < |t'| ensures PlacedInto(t'[t], bucket, folder, key) {
      if t < |trace| {
        assert t'[t] == trace[t];
      }
    }
  }

  /**
   * The inner loop of `organize_images_by_day`: every file of one day's bucket goes,
   * one after the other, through `PlaceFile` into `folder`, credited to `key`.
   * `later` are the files of the days still to come; they stay in place.
   */
  method PlaceBucket(disk: Disk, stats: Stats, bucket: seq<Path>, folder: Path, key: string,
                     ghost files0: set<Path>, ghost later: set<Path>, ghost trace0: seq<MoveEvent>)
    returns (ghost trace: seq<MoveEvent>)
    requires disk.Valid() && stats.Valid()
    requires Accounted(files0, disk.files, trace0)
    requires Distinct(bucket) && Elements(bucket) !! later
    requires Elements(bucket) + later <= disk.files && (Elements(bucket) + later) !! MovedTargets(trace0)
    requires Sources(trace0) !! (Elements(bucket) + later) && SourcesDistinct(trace0)
    requires Ancestry(folder) <= disk.folders
    requires AttemptsUnblocked(files0, trace0)
    modifies disk, stats
    ensures disk.Valid() && stats.Valid()
    ensures Accounted(files0, disk.files, trace)
    ensures AttemptsUnblocked(files0, trace)
    ensures later <= disk.files && later !! MovedTargets(trace)
    ensures Sources(trace) == Sources(trace0) + Elements(bucket) && SourcesDistinct(trace)
    ensures ExtendsInto(trace0, trace, bucket, folder, key)
    ensures stats.Total() + MovedCount(trace0) == old(stats.Total()) + MovedCount(trace)
    ensures forall k :: stats.Get(k) + MovedCountFor(trace0, k) == old(stats.Get(k)) + MovedCountFor(trace, k)
    ensures disk.folders == old(disk.folders)
  {
    trace := trace0;
    assert bucket[..0] == [] && bucket[0..] == bucket;
    var j := 0;
    while j < |bucket|
      invariant disk.Valid() && stats.Valid()
      invariant BucketInv(files0, disk.files, bucket, j, later, trace0, trace, folder, key)
      invariant stats.Total() + MovedCount(trace0) == old(stats.Total()) + MovedCount(trace)
      invariant forall k :: stats.Get(k) + MovedCountFor(trace0, k) == old(stats.Get(k)) + MovedCountFor(trace, k)
      invariant disk.folders == old(disk.folders)
      invariant AttemptsUnblocked(files0, trace)
    {
      BucketStep(bucket, j, later);
      ghost var files1, folders1, existing := disk.files, disk.folders, disk.files + disk.folders;
      var e := PlaceFile(disk, stats, bucket[j], folder, key, files0, trace, Elements(bucket[j..]) + later);
      UnionWithin(folders1, if Ancestry(folder) !! files1 then Ancestry(folder) else {});
      UnblockedInto(files0, files1, folders1, trace, e);
      BucketInvStep(files0, files1, disk.files, existing, bucket, j, later, trace0, trace, e, folder, key);
      trace := trace + [e];
      j := j + 1;
    }
    assert bucket[..j] == bucket;
  }

  /** What the inner loop keeps once the first `j` files of `bucket` have been tried. */
  ghost predicate BucketInv(files0: set<Path>, files: set<Path>, bucket: seq<Path>, j: int, later: set<Path>,
                            trace0: seq<MoveEvent>, trace: seq<MoveEvent>, folder: Path, key: string) {
    && 0 <= j <= |bucket|
    && Accounted(files0, files, trace)
    && Elements(bucket[j..]) + later <= files && (Elements(bucket[j..]) + later) !! MovedTargets(trace)
    && Sources(trace) == Sources(trace0) + Elements(bucket[..j])
    && Sources(trace) !! (Elements(bucket[j..]) + later)
    && SourcesDistinct(trace)
    && ExtendsInto(trace0, trace, bucket, folder, key)
  }

  /** Trying the `j`-th file of the bucket, as `PlaceFile` does, keeps the inner loop's invariant. */
  lemma BucketInvStep(files0: set<Path>, files1: set<Path>, files2: set<Path>, existing: set<Path>,
                      bucket: seq<Path>, j: nat, later: set<Path>,
                      trace0: seq<MoveEvent>, trace: seq<MoveEvent>, e: MoveEvent, folder: Path, key: string)
    requires BucketInv(files0, files1, bucket, j, later, trace0, trace, folder, key)
    requires Distinct(bucket) && Elements(bucket) !! later && j < |bucket|
    requires e.src == bucket[j] && e.bucket == key && Parent(e.dest) == folder
    requires IsFirstFree(existing, folder, Name(bucket[j]), e.dest)
    requires Accounted(files0, files2, trace + [e])
    requires Elements(bucket[j..]) + later - {bucket[j]} <= files2
    requires (Elements(bucket[j..]) + later - {bucket[j]}) !! MovedTargets(trace + [e])
    ensures BucketInv(files0, files2, bucket, j + 1, later, trace0, trace + [e], folder, key)
  {
    BucketStep(bucket, j, later);
    FirstFreeKeepsKind(existing, folder, Name(bucket[j]), e.dest);
    FirstFreeNamedAfter(existing, folder, bucket[j], e.dest);
    BucketTraceStep(trace0, trace, e, bucket, j);
    ExtendsIntoStep(trace0, trace, e, bucket, folder, key);
  }

  /** The folder, under home, for extensions the table does not know. */
  const OtherFolder: Path := ["File_Triage", "Autres"]

  /**
   * `get_destination(file, table)`: the table's folder for the file's lower-cased
   * extension, under home; `File_Triage/Autres` for any other extension.
   */
  function GetDestination(home: Path, file: Path, table: map<string, Path>): Path {
    var ext := Lower(Extension(Name(file)));
    if ext in table then home + table[ext] else home + OtherFolder
  }

  /** Two files whose names differ only in letter case go to the same folder. */
  lemma GetDestinationIgnoresCase(home: Path, table: map<string, Path>, p: Path, q: Path)
    requires Lower(Name(p)) == Lower(Name(q))
    ensures GetDestination(home, p, table) == GetDestination(home, q, table)
  {
    LowerExtension(Name(p));
    LowerExtension(Name(q));
  }

  /** `Path.home() / "File_Triage" / "Images"`; its name is the statistics key of the image phase. */
  function ImagesBase(home: Path): (base: Path)
    ensures Name(base) == "Images"
  {
    home + ["File_Triage", "Images"]
  }

  /**
   * The folder of a day's bucket of `size` images: `Images/<year>/<month name>`, and
   * below it the day, two digits, when the bucket holds at least `threshold` images.
   */
  function ImageFolder(home: Path, day: ValidDate, size: nat, threshold: int): Path {
    var month := ImagesBase(home) + [NatToString(day.year), MonthName(day.month)];
    if size >= threshold then month + [PadZeros(day.day, 2)] else month
  }

  /** A name without a dot has no suffix, so it is not an image's name. */
  lemma NoDotNotImage(name: string)
    requires '.' !in name
    ensures !IsImageName(name)
  {
    LastDotIs(name, -1);
    assert Extension(name) == "";
    assert Lower("") == "";
  }

  /**
   * The first `k` segments of a day's folder are on the way to the log folder
   * (`File_Triage/Logs`) when they stop at `File_Triage`, and otherwise end in
   * `Images`, a year, a month name or a day: never an image.
   */
  lemma DayFolderPrefix(home: Path, day: ValidDate, size: nat, threshold: int, k: nat)
    requires 1 <= k <= |ImageFolder(home, day, size, threshold)|
    ensures k <= |home| + 1 ==> ImageFolder(home, day, size, threshold)[..k] in Ancestry(home + ["File_Triage", "Logs"])
    ensures k > |home| + 1 ==> !IsImage(ImageFolder(home, day, size, threshold)[..k])
  {
    var folder := ImageFolder(home, day, size, threshold);
    var b, n := folder[..k], |home|;
    if k <= n + 1 {
      assert b == (home + ["File_Triage", "Logs"])[..k];
    } else {
      assert Name(b) == folder[k - 1];
      if k - 1 == n + 1 {
        assert Name(b) == "Images";
      } else if k - 1 == n + 2 {
        assert Name(b) == NatToString(day.year);
        DigitsHaveNo(NatToString(day.year), '.');
      } else if k - 1 == n + 3 {
        assert Name(b) == MonthName(day.month);
        assert '.' !in MonthNames[day.month - 1];
      } else {
        assert Name(b) == PadZeros(day.day, 2);
        DigitsHaveNo(PadZeros(day.day, 2), '.');
      }
      NoDotNotImage(Name(b));
    }
  }

  /** A path on the way to a day's folder but not to the log folder is never an image. */
  lemma BlockerNotImage(home: Path, day: ValidDate, size: nat, threshold: int, b: Path)
    requires b in Ancestry(ImageFolder(home, day, size, threshold))
    requires b !in Ancestry(home + ["File_Triage", "Logs"])
    ensures !IsImage(b)
  {
    var k :| 1 <= k <= |ImageFolder(home, day, size, threshold)| && b == ImageFolder(home, day, size, threshold)[..k];
    DayFolderPrefix(home, day, size, threshold, k);
  }

  /** Two days that both get a day folder get different folders. */
  lemma DayFoldersDistinct(home: Path, d1: ValidDate, d2: ValidDate, s1: nat, s2: nat, threshold: int)
    requires s1 >= threshold && s2 >= threshold && d1 != d2
    ensures ImageFolder(home, d1, s1, threshold) != ImageFolder(home, d2, s2, threshold)
  {
    var f1, f2 := ImageFolder(home, d1, s1, threshold), ImageFolder(home, d2, s2, threshold);
    var n := |home| + 2;
    if f1 == f2 {
      assert f1[n] == NatToString(d1.year) && f2[n] == NatToString(d2.year);
      NatToStringInjective(d1.year, d2.year);
      assert f1[n + 1] == MonthName(d1.month) && f2[n + 1] == MonthName(d2.month);
      MonthNameInjective(d1.month, d2.month);
      assert f1[n + 2] == PadZeros(d1.day, 2) && f2[n + 2] == PadZeros(d2.day, 2);
      PadZerosRoundTrip(d1.day, 2);
      PadZerosRoundTrip(d2.day, 2);
      assert false;
    }
  }

  /** Below the threshold the days of one month share the month folder; the day folder lies inside it. */
  lemma MonthFolderShared(home: Path, d1: ValidDate, d2: ValidDate, s1: nat, s2: nat, threshold: int)
    requires d1.year == d2.year && d1.month == d2.month
    requires s1 < threshold && s2 < threshold
    ensures ImageFolder(home, d1, s1, threshold) == ImageFolder(home, d2, s2, threshold)
    ensures forall s :: s >= threshold ==> Parent(ImageFolder(home, d1, s, threshold)) == ImageFolder(home, d1, s1, threshold)
  {
  }

  /**
   * What the image phase did with one file: it was a dated image of `dir`, it went into
   * the folder of its capture day, sized by that day's number of dated images, under its
   * own name or `stem_k.suffix`, kept being an image, and was credited to "Images".
   */
  ghost predicate PlacedByDay(files: set<Path>, dir: Path, dates: DateSource, home: Path, threshold: int, e: MoveEvent) {
    && e.src in DatedImages(files, dir, dates)
    && e.bucket == "Images"
    && NamedAfter(e.src, e.dest)
    && IsImage(e.dest)
    && DayTaken(dates, e.src).Some?
    && var d := DayTaken(dates, e.src).value;
       Parent(e.dest) == ImageFolder(home, d, |DayBucket(files, dir, dates, d)|, threshold)
  }

  /** The moves of one day's bucket into that day's folder are placements by day. */
  lemma BucketPlacedByDay(trace0: seq<MoveEvent>, trace: seq<MoveEvent>, bucket: seq<Path>, folder: Path,
                          files: set<Path>, dir: Path, dates: DateSource, home: Path, threshold: int, day: ValidDate)
    requires ExtendsInto(trace0, trace, bucket, folder, "Images")
    requires forall p :: p in bucket ==> p in DayBucket(files, dir, dates, day)
    requires folder == ImageFolder(home, day, |DayBucket(files, dir, dates, day)|, threshold)
    requires forall t :: 0 <= t < |trace0| ==> PlacedByDay(files, dir, dates, home, threshold, trace0[t])
    ensures forall t :: 0 <= t < |trace| ==> PlacedByDay(files, dir, dates, home, threshold, trace[t])
  {
    forall t | 0 <= t < |trace| ensures PlacedByDay(files, dir, dates, home, threshold, trace[t]) {
      if t < |trace0| {
        assert trace[t] == trace[..|trace0|][t];
      } else {
        assert PlacedInto(trace[t], bucket, folder, "Images");
        assert trace[t].src in DayBucket(files, dir, dates, day);
      }
    }
  }

  /**
   * The state of the image phase before its `i`-th day: the files of the days still to
   * come are in place and untouched; every file tried so far is a dated image of `dir`,
   * tried once and placed by its day; together they make up the dated images of `dir`.
   */
  ghost predicate ImagePhaseInv(files: set<Path>, files0: set<Path>, g: Grouping, i: nat, dir: Path, dates: DateSource,
                                home: Path, threshold: int, trace: seq<MoveEvent>) {
    && BucketsAreDays(g, files0, dir, dates) && i <= |g.days|
    && Accounted(files0, files, trace)
    && Later(g, i) <= files && Later(g, i) !! MovedTargets(trace)
    && Sources(trace) !! Later(g, i) && Sources(trace) + Later(g, i) == DatedImages(files0, dir, dates)
    && SourcesDistinct(trace)
    && forall t :: 0 <= t < |trace| ==> PlacedByDay(files0, dir, dates, home, threshold, trace[t])
  }

  /**
   * The folder of day `d`, a day with dated images in `dir`, cannot be made: a regular
   * file lies on its path, so `create_directory_if_missing` raises.
   */
  ghost predicate DayBlocked(files: set<Path>, files0: set<Path>, dir: Path, dates: DateSource, home: Path,
                             threshold: int, d: ValidDate) {
    && DayBucket(files0, dir, dates, d) != {}
    && !(Ancestry(FolderOfDay(files0, dir, dates, home, threshold, d)) !! files)
  }

  /** The folder of day `d`, sized by the number of dated images of `dir` taken that day. */
  ghost function FolderOfDay(files0: set<Path>, dir: Path, dates: DateSource, home: Path, threshold: int,
                             d: ValidDate): Path {
    ImageFolder(home, d, |DayBucket(files0, dir, dates, d)|, threshold)
  }

  /** Once every dated image has been tried, by day, the folders of every day with images exist. */
  lemma AllDaysReached(files0: set<Path>, dir: Path, dates: DateSource, home: Path, threshold: int,
                       trace: seq<MoveEvent>, folders: set<Path>)
    requires forall t :: 0 <= t < |trace| ==> PlacedByDay(files0, dir, dates, home, threshold, trace[t])
    requires Sources(trace) == DatedImages(files0, dir, dates)
    requires FoldersOf(trace) <= folders
    ensures forall d :: DayBucket(files0, dir, dates, d) != {} ==>
      Ancestry(FolderOfDay(files0, dir, dates, home, threshold, d)) <= folders
  {
    forall d | DayBucket(files0, dir, dates, d) != {}
      ensures Ancestry(FolderOfDay(files0, dir, dates, home, threshold, d)) <= folders
    {
      DaysReached(files0, dir, dates, home, threshold, trace, d);
    }
  }

  /**
   * Once every dated image has been tried, by day, the folder of every day with images
   * was asked for, with every folder above it.
   */
  lemma DaysReached(files0: set<Path>, dir: Path, dates: DateSource, home: Path, threshold: int,
                    trace: seq<MoveEvent>, d: ValidDate)
    requires forall t :: 0 <= t < |trace| ==> PlacedByDay(files0, dir, dates, home, threshold, trace[t])
    requires Sources(trace) == DatedImages(files0, dir, dates)
    requires DayBucket(files0, dir, dates, d) != {}
    ensures Ancestry(FolderOfDay(files0, dir, dates, home, threshold, d)) <= FoldersOf(trace)
  {
    var p :| p in DayBucket(files0, dir, dates, d);
    assert p in Sources(trace);
    var t :| 0 <= t < |trace| && trace[t].src == p;
    assert PlacedByDay(files0, dir, dates, home, threshold, trace[t]);
    FoldersOfHas(trace, t);
  }

  /** Every day of the grouping has dated images. */
  lemma DayHasImages(g: Grouping, i: nat, files0: set<Path>, dir: Path, dates: DateSource)
    requires i < |g.days| && BucketsAreDays(g, files0, dir, dates)
    ensures DayBucket(files0, dir, dates, g.days[i]) != {}
  {
    var b := g.buckets[g.days[i]];
    assert b[0] in b;
  }

  /**
   * One turn of the outer loop of `organize_images_by_day`, for the `i`-th day: the
   * year and month are read again from the date of the bucket's first file, the day from
   * the bucket's key; the folder is made (`made` false, nothing else done, when that
   * raises), then the bucket is placed.
   */
  method PlaceDay(disk: Disk, stats: Stats, g: Grouping, i: nat, home: Path, threshold: int,
                  ghost files0: set<Path>, dir: Path, dates: DateSource, ghost trace0: seq<MoveEvent>)
    returns (made: bool, ghost trace: seq<MoveEvent>)
    requires disk.Valid() && stats.Valid()
    requires i < |g.days| && ImagePhaseInv(disk.files, files0, g, i, dir, dates, home, threshold, trace0)
    requires AttemptsUnblocked(files0, trace0)
    modifies disk, stats
    ensures disk.Valid() && stats.Valid()
    ensures AttemptsUnblocked(files0, trace)
    ensures made == !DayBlocked(old(disk.files), files0, dir, dates, home, threshold, g.days[i])
    ensures made ==> ImagePhaseInv(disk.files, files0, g, i + 1, dir, dates, home, threshold, trace)
    ensures !made ==> trace == trace0 && disk.files == old(disk.files)
    ensures stats.Total() + MovedCount(trace0) == old(stats.Total()) + MovedCount(trace)
    ensures forall k :: stats.Get(k) + MovedCountFor(trace0, k) == old(stats.Get(k)) + MovedCountFor(trace, k)
    ensures !made ==> disk.folders == old(disk.folders)
    ensures made ==> var folders := Ancestry(FolderOfDay(files0, dir, dates, home, threshold, g.days[i]));
                     disk.folders == old(disk.folders) + folders && FoldersOf(trace) == FoldersOf(trace0) + folders
  {
    var folder := DayFolder(g, i, home, threshold, files0, dir, dates);
    assert folder == FolderOfDay(files0, dir, dates, home, threshold, g.days[i]);
    made := disk.MakeDirs(folder);
    DayHasImages(g, i, files0, dir, dates);
    trace := trace0;
    if made {
      trace := FillDay(disk, stats, g, i, folder, home, threshold, files0, dir, dates, trace0);
    }
  }

  /**
   * The folder of the `i`-th day: `Images/<year>/<month name>` with the year and month
   * read again from the date of the bucket's first file, and below it the day of the
   * bucket's key when the bucket holds at least `threshold` files.
   */
  method DayFolder(g: Grouping, i: nat, home: Path, threshold: int, ghost files0: set<Path>, dir: Path, dates: DateSource)
    returns (folder: Path)
    requires i < |g.days| && BucketsAreDays(g, files0, dir, dates)
    ensures folder == ImageFolder(home, g.days[i], |DayBucket(files0, dir, dates, g.days[i])|, threshold)
  {
    var day := g.days[i];
    var bucket := g.buckets[day];
    BucketOfDay(g, files0, dir, dates, day);
    var dateTaken := DateTaken(dates, bucket[0]).value;
    var baseFolder := ImagesBase(home);
    var monthFolder := baseFolder + [NatToString(dateTaken.year), MonthName(dateTaken.month)];
    folder := if |bucket| >= threshold then monthFolder + [PadZeros(day.day, 2)] else monthFolder;
  }

  /** The files of the `i`-th day, once its folder exists, each placed into it. */
  method FillDay(disk: Disk, stats: Stats, g: Grouping, i: nat, folder: Path, home: Path, threshold: int,
                 ghost files0: set<Path>, dir: Path, dates: DateSource, ghost trace0: seq<MoveEvent>)
    returns (ghost trace: seq<MoveEvent>)
    requires disk.Valid() && stats.Valid()
    requires i < |g.days| && ImagePhaseInv(disk.files, files0, g, i, dir, dates, home, threshold, trace0)
    requires folder == ImageFolder(home, g.days[i], |DayBucket(files0, dir, dates, g.days[i])|, threshold)
    requires Ancestry(folder) <= disk.folders
    requires AttemptsUnblocked(files0, trace0)
    modifies disk, stats
    ensures disk.Valid() && stats.Valid()
    ensures ImagePhaseInv(disk.files, files0, g, i + 1, dir, dates, home, threshold, trace)
    ensures AttemptsUnblocked(files0, trace)
    ensures stats.Total() + MovedCount(trace0) == old(stats.Total()) + MovedCount(trace)
    ensures forall k :: stats.Get(k) + MovedCountFor(trace0, k) == old(stats.Get(k)) + MovedCountFor(trace, k)
    ensures disk.folders == old(disk.folders) && FoldersOf(trace) == FoldersOf(trace0) + Ancestry(folder)
  {
    var day := g.days[i];
    var bucket := g.buckets[day];
    BucketOfDay(g, files0, dir, dates, day);
    LaterSplit(g, i, dates);
    trace := PlaceBucket(disk, stats, bucket, folder, Name(ImagesBase(home)), files0, Later(g, i + 1), trace0);
    BucketTried(trace0, trace, bucket);
    FoldersOfInto(trace0, trace, folder);
    ImagePhaseStep(old(disk.files), disk.files, files0, g, i, folder, dir, dates, home, threshold, trace0, trace);
  }

  /** Trying the files of a non-empty bucket made the trace longer. */
  lemma BucketTried(trace0: seq<MoveEvent>, trace: seq<MoveEvent>, bucket: seq<Path>)
    requires bucket != [] && Sources(trace0) !! Elements(bucket)
    requires Sources(trace) == Sources(trace0) + Elements(bucket)
    requires |trace0| <= |trace| && trace[..|trace0|] == trace0
    ensures |trace0| < |trace|
  {
    assert bucket[0] in Sources(trace) && bucket[0] !in Sources(trace0);
    assert trace != trace0;
  }

  /** Placing the `i`-th day's bucket into the day's folder takes the image phase to the next day. */
  lemma ImagePhaseStep(before: set<Path>, files: set<Path>, files0: set<Path>, g: Grouping, i: nat, folder: Path,
                       dir: Path, dates: DateSource, home: Path, threshold: int,
                       trace0: seq<MoveEvent>, trace: seq<MoveEvent>)
    requires i < |g.days| && ImagePhaseInv(before, files0, g, i, dir, dates, home, threshold, trace0)
    requires folder == ImageFolder(home, g.days[i], |DayBucket(files0, dir, dates, g.days[i])|, threshold)
    requires Accounted(files0, files, trace)
    requires Later(g, i + 1) <= files && Later(g, i + 1) !! MovedTargets(trace)
    requires Sources(trace) == Sources(trace0) + Elements(g.buckets[g.days[i]]) && SourcesDistinct(trace)
    requires ExtendsInto(trace0, trace, g.buckets[g.days[i]], folder, "Images")
    ensures ImagePhaseInv(files, files0, g, i + 1, dir, dates, home, threshold, trace)
  {
    var day := g.days[i];
    BucketOfDay(g, files0, dir, dates, day);
    LaterSplit(g, i, dates);
    ShiftDay(Sources(trace0), Sources(trace), Elements(g.buckets[day]), Later(g, i), Later(g, i + 1),
             DatedImages(files0, dir, dates));
    BucketPlacedByDay(trace0, trace, g.buckets[day], folder, files0, dir, dates, home, threshold, day);
  }

  /** Moving one day's files from the files to come to the files tried keeps the two apart and their union whole. */
  lemma ShiftDay(tried0: set<Path>, tried: set<Path>, day: set<Path>, later: set<Path>, rest: set<Path>, all: set<Path>)
    requires later == day + rest && day !! rest
    requires tried0 !! later && tried0 + later == all
    requires tried == tried0 + day
    ensures tried !! rest && tried + rest == all
  {
  }

  /** What the invariant of the image phase gives when the phase stops, early or not. */
  lemma ImagePhaseOutcome(files: set<Path>, files0: set<Path>, g: Grouping, i: nat, dir: Path, dates: DateSource,
                          home: Path, threshold: int, trace: seq<MoveEvent>)
    requires ImagePhaseInv(files, files0, g, i, dir, dates, home, threshold, trace)
    ensures Accounted(files0, files, trace) && SourcesDistinct(trace)
    ensures forall t :: 0 <= t < |trace| ==> PlacedByDay(files0, dir, dates, home, threshold, trace[t])
    ensures Sources(trace) <= DatedImages(files0, dir, dates)
    ensures i == |g.days| ==> Sources(trace) == DatedImages(files0, dir, dates)
  {
    if i == |g.days| {
      assert Later(g, i) == {};
    }
  }

  /**
   * `organize_images_by_day(dir, threshold, log, stats)`: group the dated images of `dir`
   * by day; for each day make its folder and move each of its images there under a
   * collision-free name, adding one to `stats["Images"]` per move that succeeds.
   * A folder that cannot be made raises out of the function: `completed` is then false
   * and the days not reached are left alone. `trace` records every attempted move.
   */
  method OrganizeImagesByDay(disk: Disk, stats: Stats, dir: Path, threshold: int, home: Path, dates: DateSource)
    returns (completed: bool, ghost trace: seq<MoveEvent>)
    requires disk.Valid() && stats.Valid()
    modifies disk, stats
    ensures disk.Valid() && stats.Valid()
    ensures Accounted(old(disk.files), disk.files, trace)
    ensures AttemptsUnblocked(old(disk.files), trace)
    ensures SourcesDistinct(trace)
    ensures forall t :: 0 <= t < |trace| ==> PlacedByDay(old(disk.files), dir, dates, home, threshold, trace[t])
    ensures Sources(trace) <= DatedImages(old(disk.files), dir, dates)
    ensures completed ==> Sources(trace) == DatedImages(old(disk.files), dir, dates)
    ensures !completed ==> exists d :: DayBlocked(disk.files, old(disk.files), dir, dates, home, threshold, d)
    ensures completed ==> forall d :: DayBucket(old(disk.files), dir, dates, d) != {} ==>
      Ancestry(FolderOfDay(old(disk.files), dir, dates, home, threshold, d)) <= disk.folders
    ensures disk.folders == old(disk.folders) + FoldersOf(trace)
    ensures stats.Total() == old(stats.Total()) + MovedCount(trace)
    ensures forall k :: stats.Get(k) == old(stats.Get(k)) + MovedCountFor(trace, k)
  {
    var entries := disk.IterDir(dir);
    var g := GroupImageByDay(entries, dates);
    GroupingOfListing(entries, disk.files, disk.folders, dir, dates);
    ghost var files0 := disk.files;
    trace := [];
    AccountedEmpty(files0);
    completed := true;
    var i := 0;
    while i < |g.days|
      invariant disk.Valid() && stats.Valid()
      invariant ImagePhaseInv(disk.files, files0, g, i, dir, dates, home, threshold, trace)
      invariant stats.Total() == old(stats.Total()) + MovedCount(trace)
      invariant forall k :: stats.Get(k) == old(stats.Get(k)) + MovedCountFor(trace, k)
      invariant disk.folders == old(disk.folders) + FoldersOf(trace)
      invariant AttemptsUnblocked(files0, trace)
      decreases |g.days| - i
    {
      var made;
      ghost var folders1, trace1 := disk.folders, trace;
      made, trace := PlaceDay(disk, stats, g, i, home, threshold, files0, dir, dates, trace);
      if made {
        UnionShift(old(disk.folders), folders1, disk.folders, FoldersOf(trace1), FoldersOf(trace),
                   Ancestry(FolderOfDay(files0, dir, dates, home, threshold, g.days[i])));
      } else {
        completed := false;
        assert DayBlocked(disk.files, files0, dir, dates, home, threshold, g.days[i]);
        break;
      }
      i := i + 1;
    }
    ImagePhaseOutcome(disk.files, files0, g, i, dir, dates, home, threshold, trace);
    if completed {
      AllDaysReached(files0, dir, dates, home, threshold, trace, disk.folders);
    }
  }
}
