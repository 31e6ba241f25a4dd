/** The POSIX `node:path` functions the copy pipeline uses: join, dirname,
    basename and extname. Paths are assumed normalised (no `.`/`..`
    segments, no doubled or trailing `/`), so `join` is concatenation with
    one `/`. */
module Paths {
  import opened Wrappers
  import opened Strings

  type Path = string

  /** Index of the last occurrence of `c` among the first `n` characters. */
  function LastIndexBefore(s: string, c: char, n: nat): (r: Option<nat>)
    requires n <= |s|
    ensures r.Some? ==> r.value < n && s[r.value] == c
    ensures r.Some? ==> forall j :: r.value < j < n ==> s[j] != c
    ensures r.None? ==> forall j :: 0 <= j < n ==> s[j] != c
  {
    if n == 0 then None
    else if s[n - 1] == c then Some(n - 1)
    else LastIndexBefore(s, c, n - 1)
  }

  /** `s.lastIndexOf(c)`, with None for -1. */
  function LastIndexOf(s: string, c: char): (r: Option<nat>)
    ensures r.Some? ==> r.value < |s| && s[r.value] == c
    ensures r.Some? ==> forall j :: r.value < j < |s| ==> s[j] != c
    ensures r.None? ==> c !in s
  {
    LastIndexBefore(s, c, |s|)
  }

  /** The last occurrence is where `c` occurs with no `c` after it. */
  lemma LastIndexOfAt(s: string, c: char, k: nat)
    requires k < |s| && s[k] == c
    requires forall j :: k < j < |s| ==> s[j] != c
    ensures LastIndexOf(s, c) == Some(k)
  {
    assert s[k] in s;
  }

  /** `path.join(a, b)` */
  function Join(a: Path, b: Path): Path
  {
    a + "/" + b
  }

  /** `path.dirname(p)`: everything before the last `/`; "." without one. */
  function Dirname(p: Path): Path
  {
    match LastIndexOf(p, '/')
    case None => "."
    case Some(k) => if k == 0 then "/" else p[..k]
  }

  /** `path.basename(p)`: everything after the last `/`. */
  function Basename(p: Path): (r: Path)
    ensures '/' !in r
    ensures EndsWith(p, r)
  {
    match LastIndexOf(p, '/')
    case None => p
    case Some(k) =>
      p[k + 1..]
  }

  /** `path.extname(p)`: from the last `.` of the basename, unless that dot
      starts the basename or the basename is "..". */
  function Extname(p: Path): (r: string)
    ensures EndsWith(Basename(p), r)
    ensures r != "" ==> r[0] == '.' && |r| < |Basename(p)|
  {
    var b := Basename(p);
    var d := LastIndexOf(b, '.');
    SuffixFrom(b, if d.None? || d.value == 0 || b == ".." then |b| else d.value);
    if d.None? || d.value == 0 || b == ".." then "" else b[d.value..]
  }

  lemma SuffixFrom(s: string, d: nat)
    requires d <= |s|
    ensures EndsWith(s, s[d..]) && s[|s|..] == ""
  {
  }

  /** `path.basename(p, path.extname(p))`: the basename without its
      extension. */
  function Stem(p: Path): (r: string)
  {
    var b := Basename(p);
    b[..|b| - |Extname(p)|]
  }

  lemma DirnameJoin(a: Path, f: Path)
    requires |a| > 0 && '/' !in f
    ensures Dirname(Join(a, f)) == a
  {
    var s := Join(a, f);
    assert s[|a|] == '/';
    assert forall j :: |a| < j < |s| ==> s[j] == f[j - |a| - 1];
    var k := LastIndexOf(s, '/');
    assert k == Some(|a|);
    assert s[..|a|] == a;
  }

  lemma BasenameJoin(a: Path, f: Path)
    requires '/' !in f
    ensures Basename(Join(a, f)) == f
  {
    var s := Join(a, f);
    assert s[|a|] == '/';
    assert forall j :: |a| < j < |s| ==> s[j] == f[j - |a| - 1];
    assert LastIndexOf(s, '/') == Some(|a|);
    assert s[|a| + 1..] == f;
  }

  lemma StemFree(src: Path)
    ensures '/' !in Stem(src)
  {
    var b := Basename(src);
    var stem := Stem(src);
    forall i | 0 <= i < |stem| ensures stem[i] != '/' {
      assert stem[i] == b[i];
      assert b[i] in b;
    }
  }

  lemma LastDotOfName(stem: string, ext: string)
    requires |ext| >= 2 && ext[0] == '.' && forall i :: 1 <= i < |ext| ==> ext[i] != '.'
    ensures LastIndexOf(stem + ext, '.') == Some(|stem|)
  {
    var name := stem + ext;
    forall j | |stem| < j < |name| ensures name[j] != '.' {
      assert name[j] == ext[j - |stem|];
    }
    LastIndexOfAt(name, '.', |stem|);
  }

  /** The output file name a transcoding plugin derives,
      `join(destDir, stem + ext)`, lies in `destDir`, has basename
      `stem + ext` and extension `ext`. */
  lemma DerivedOutput(destDir: Path, src: Path, ext: string)
    requires |destDir| > 0 && Stem(src) != ""
    requires |ext| >= 2 && ext[0] == '.' && '/' !in ext
    requires forall i :: 1 <= i < |ext| ==> ext[i] != '.'
    ensures var out := Join(destDir, Stem(src) + ext);
      Dirname(out) == destDir && Basename(out) == Stem(src) + ext && Extname(out) == ext
  {
    var stem := Stem(src);
    var name := stem + ext;
    StemFree(src);
    assert '/' !in name;
    DirnameJoin(destDir, name);
    BasenameJoin(destDir, name);
    LastDotOfName(stem, ext);
    assert name != ".." by { assert |name| >= 3; }
    assert name[|stem|..] == ext;
  }

  /** A file at relative path `dir/f` sits, below `root`, in the directory
      `join(root, dir)`. */
  lemma SameDirectory(root: Path, dir: Path, f: Path)
    requires |root| > 0 && '/' !in f
    ensures Dirname(Join(root, Join(dir, f))) == Join(root, dir)
  {
    assert Join(root, Join(dir, f)) == Join(Join(root, dir), f);
    DirnameJoin(Join(root, dir), f);
  }
}
