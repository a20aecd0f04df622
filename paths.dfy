/**
 * `pathlib.Path` as a sequence of segments, with the parts of a file name the
 * code reads: `name`, `parent`, `stem`, `suffix` and the extension `suffix[1:]`.
 * `stem` and `suffix` follow pathlib (Python 3.8 to 3.13): the suffix starts at
 * the last '.' of the name, unless that dot is the first or the last character.
 */
module Paths {
  import opened Text

  type Path = seq<string>

  /** `p.name`: the last segment. */
  function Name(p: Path): string {
    if p == [] then "" else p[|p| - 1]
  }

  /** `p.parent`: every segment but the last. */
  function Parent(p: Path): Path {
    if p == [] then [] else p[..|p| - 1]
  }

  /** `p` is an entry of folder `dir`. */
  predicate IsChildOf(p: Path, dir: Path) {
    |p| == |dir| + 1 && p[..|dir|] == dir
  }

  lemma ChildParts(dir: Path, name: string)
    ensures IsChildOf(dir + [name], dir)
    ensures Parent(dir + [name]) == dir && Name(dir + [name]) == name
  {
    assert (dir + [name])[..|dir|] == dir;
  }

  /** No path occurs twice. */
  predicate Distinct(s: seq<Path>) {
    forall i, j :: 0 <= i < j < |s| ==> s[i] != s[j]
  }

  /** The paths a list holds. */
  function Elements(s: seq<Path>): set<Path> {
    set p | p in s
  }

  /** The paths of a list without repetition are as many as its elements. */
  lemma {:induction false} DistinctCard(s: seq<Path>)
    requires Distinct(s)
    ensures |Elements(s)| == |s|
  {
    if s != [] {
      var init := s[..|s| - 1];
      DistinctCard(init);
      assert Elements(s) == Elements(init) + {s[|s| - 1]};
      assert s[|s| - 1] !in init;
    }
  }

  /** The folders that `mkdir(parents=True)` has to make exist for `p`, `p` included. */
  function Ancestry(p: Path): set<Path> {
    set k | 1 <= k <= |p| :: p[..k]
  }

  /** Position of the last '.' of `s`, or -1 (`str.rfind('.')`). */
  function LastDot(s: string): (i: int)
    ensures -1 <= i < |s|
    ensures i >= 0 ==> s[i] == '.'
  {
    if s == [] then -1
    else if s[|s| - 1] == '.' then |s| - 1
    else LastDot(s[..|s| - 1])
  }

  /** No dot follows the last dot. */
  lemma {:induction false} LastDotIsLast(s: string)
    ensures forall j :: LastDot(s) < j < |s| ==> s[j] != '.'
  {
    if s != [] && s[|s| - 1] != '.' {
      var init := s[..|s| - 1];
      LastDotIsLast(init);
      assert forall j :: 0 <= j < |init| ==> s[j] == init[j];
    }
  }

  /** A dot after which no dot follows is the last dot. */
  lemma LastDotIs(s: string, i: int)
    requires -1 <= i < |s|
    requires i >= 0 ==> s[i] == '.'
    requires forall j :: i < j < |s| ==> s[j] != '.'
    ensures LastDot(s) == i
  {
  }

  predicate HasSuffix(name: string) {
    var i := LastDot(name);
    0 < i < |name| - 1
  }

  /** `Path(name).suffix`. */
  function Suffix(name: string): string {
    if HasSuffix(name) then name[LastDot(name)..] else ""
  }

  /** `Path(name).stem`. */
  function Stem(name: string): string {
    if HasSuffix(name) then name[..LastDot(name)] else name
  }

  /** `suffix[1:]`, the extension without its dot. */
  function Extension(name: string): string {
    var s := Suffix(name);
    if s == "" then "" else s[1..]
  }

  /** stem + suffix == name, and a non-empty suffix is a dot, then at least one character, none a dot. */
  lemma StemSuffixSplit(name: string)
    ensures Stem(name) + Suffix(name) == name
    ensures Suffix(name) == "" || (|Suffix(name)| >= 2 && Suffix(name)[0] == '.' && '.' !in Suffix(name)[1..])
    ensures Suffix(name) != "" ==> |Stem(name)| > 0
  {
    if HasSuffix(name) {
      var s := Suffix(name);
      var i := LastDot(name);
      LastDotIsLast(name);
      forall j | 0 <= j < |s| - 1 ensures s[1..][j] != '.' {
        assert s[1..][j] == name[i + 1 + j];
      }
    }
  }

  /** The name the conflict resolver tries at its k-th renaming: `f"{stem}_{k}{suffix}"`. */
  function RenamedName(name: string, k: nat): string {
    Stem(name) + "_" + NatToString(k) + Suffix(name)
  }

  /** A renamed file keeps its suffix whenever it had one. */
  lemma RenamedKeepsSuffix(name: string, k: nat)
    requires Suffix(name) != ""
    ensures Suffix(RenamedName(name, k)) == Suffix(name)
    ensures Stem(RenamedName(name, k)) == Stem(name) + "_" + NatToString(k)
  {
    StemSuffixSplit(name);
    SplitAtSuffix(Stem(name) + "_" + NatToString(k), Suffix(name));
  }

  /** A non-empty head followed by a dot and at least one character, none a dot, splits back there. */
  lemma SplitAtSuffix(head: string, sfx: string)
    requires |head| > 0 && |sfx| >= 2 && sfx[0] == '.' && '.' !in sfx[1..]
    ensures Suffix(head + sfx) == sfx && Stem(head + sfx) == head
  {
    var t := head + sfx;
    var p := |head|;
    assert t[p] == '.';
    forall j | p < j < |t| ensures t[j] != '.' {
      assert t[j] == sfx[1..][j - p - 1];
    }
    LastDotIs(t, p);
    assert t[p..] == sfx;
    assert t[..p] == head;
  }

  /**
   * A name without a suffix gains one only if it contains a dot that is not its first
   * character; whatever it gains ends with the last digit of the counter.
   */
  lemma {:induction false} RenamedSuffixEndsInDigit(name: string, k: nat)
    requires Suffix(name) == ""
    ensures var s := Suffix(RenamedName(name, k)); s == "" || (|s| >= 2 && IsDigit(s[|s| - 1]))
  {
    var t := RenamedName(name, k);
    var d := NatToString(k);
    assert t == Stem(name) + "_" + d;
    assert t[|t| - 1] == d[|d| - 1];
    var s := Suffix(t);
    if s != "" {
      assert s[|s| - 1] == t[|t| - 1];
    }
  }

  /** Lower-casing a name does not move its last dot. */
  lemma LowerKeepsLastDot(s: string)
    ensures LastDot(Lower(s)) == LastDot(s)
  {
    var i := LastDot(s);
    var l := Lower(s);
    LastDotIsLast(s);
    assert forall j :: 0 <= j < |s| ==> (l[j] == '.' <==> s[j] == '.');
    LastDotIs(l, i);
  }

  /** `Path(name.lower()).suffix[1:] == Path(name).suffix[1:].lower()`. */
  lemma LowerExtension(name: string)
    ensures Extension(Lower(name)) == Lower(Extension(name))
  {
    LowerKeepsLastDot(name);
    if HasSuffix(name) {
      var i := LastDot(name);
      assert Lower(name)[i..][1..] == Lower(name[i..][1..]);
    }
  }
}
