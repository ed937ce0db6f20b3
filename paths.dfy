/** The part of `pathlib.PurePosixPath` the core uses: `.name` and `.suffix`. */
module Paths {

  import opened Text

  type Path = string

  /** `s.rfind(c)`: the last index holding `c`, or -1. */
  function LastIndexOf(s: string, c: char): (r: int)
    ensures -1 <= r < |s|
    ensures r >= 0 ==> s[r] == c
    ensures forall j :: r < j < |s| ==> s[j] != c
    decreases |s|
  {
    if s == [] then -1
    else if s[|s| - 1] == c then |s| - 1
    else LastIndexOf(s[..|s| - 1], c)
  }

  /** The path without the slashes that end it (pathlib drops them). */
  function StripTrailingSlashes(p: Path): (r: Path)
    ensures |r| <= |p| && r == p[..|r|]
    ensures r == [] || r[|r| - 1] != '/'
    ensures forall j :: |r| <= j < |p| ==> p[j] == '/'
    decreases |p|
  {
    if p != [] && p[|p| - 1] == '/' then StripTrailingSlashes(p[..|p| - 1]) else p
  }

  /** `PurePath(p).name`: the last component. */
  function Name(p: Path): (r: string)
    ensures forall j :: 0 <= j < |r| ==> r[j] != '/'
  {
    var q := StripTrailingSlashes(p);
    q[LastIndexOf(q, '/') + 1..]
  }

  /** `PurePath(p).suffix`: the last dot-part of the name, if the dot is
      neither the name's first nor its last character. */
  function Suffix(p: Path): string {
    var name := Name(p);
    var i := LastIndexOf(name, '.');
    if 0 < i < |name| - 1 then name[i..] else ""
  }

  /** What a suffix looks like: empty, or a dot followed by at least one
      character that is neither a dot nor a slash. */
  predicate IsSuffixShape(x: string) {
    x == [] || (|x| >= 2 && x[0] == '.' && forall k :: 1 <= k < |x| ==> x[k] != '.' && x[k] != '/')
  }

  lemma SuffixShape(p: Path)
    ensures IsSuffixShape(Suffix(p))
  {
  }

  /** Temporary files are created under this prefix. */
  const TempPrefix: string := "/tmp/tmp"

  /** `p` is `TempPrefix`, then characters that are neither dots nor slashes,
      then `suffix` -- the shape of a `tempfile.NamedTemporaryFile(suffix=…)` name. */
  predicate IsTempName(p: Path, suffix: string) {
    && |p| >= |TempPrefix| + |suffix|
    && p[..|TempPrefix|] == TempPrefix
    && p[|p| - |suffix|..] == suffix
    && forall k :: |TempPrefix| <= k < |p| - |suffix| ==> p[k] != '.' && p[k] != '/'
  }

  /** The last occurrence is pinned down by its position. */
  lemma LastIndexOfAt(s: string, c: char, k: int)
    requires -1 <= k < |s| && (k >= 0 ==> s[k] == c)
    requires forall j :: k < j < |s| ==> s[j] != c
    ensures LastIndexOf(s, c) == k
  {
  }

  /** Where the slashes of a temporary name are: the one ending `/tmp/` is
      the last one, and the name does not end in a slash. */
  lemma TempNameSlashes(p: Path, suffix: string)
    requires IsSuffixShape(suffix) && IsTempName(p, suffix)
    ensures p[4] == '/' && p[|p| - 1] != '/'
    ensures forall j :: 4 < j < |p| ==> p[j] != '/'
  {
    var n := |TempPrefix|;
    var m := |p| - |suffix|;
    assert p[..n] == TempPrefix;
    forall j | 4 < j < |p| ensures p[j] != '/' {
      if j < n {
        assert p[j] == p[..n][j] == TempPrefix[j];
      } else if j >= m {
        assert p[j] == p[m..][j - m] == suffix[j - m];
      }
    }
    assert p[4] == p[..n][4] == TempPrefix[4];
  }

  /** Where the dots of a temporary name's last component are. */
  lemma TempNameDots(p: Path, suffix: string)
    requires IsSuffixShape(suffix) && IsTempName(p, suffix)
    ensures suffix == [] ==> forall j :: 5 <= j < |p| ==> p[j] != '.'
    ensures suffix != [] ==> p[|p| - |suffix|] == '.' && forall j :: |p| - |suffix| < j < |p| ==> p[j] != '.'
  {
    var n := |TempPrefix|;
    var m := |p| - |suffix|;
    assert p[..n] == TempPrefix;
    assert p[m..] == suffix;
    forall j | 5 <= j < |p| && (suffix == [] || m < j) ensures p[j] != '.' {
      if j < n {
        assert p[j] == p[..n][j] == TempPrefix[j];
      } else if j >= m {
        assert p[j] == p[m..][j - m] == suffix[j - m];
      }
    }
    if suffix != [] {
      assert p[m] == p[m..][0] == suffix[0];
    }
  }

  /** A temporary file keeps the suffix it was created with. */
  lemma TempNameSuffix(p: Path, suffix: string)
    requires IsSuffixShape(suffix) && IsTempName(p, suffix)
    ensures Suffix(p) == suffix
  {
    TempNameSlashes(p, suffix);
    TempNameDots(p, suffix);
    assert StripTrailingSlashes(p) == p;
    LastIndexOfAt(p, '/', 4);
    var name := p[5..];
    assert Name(p) == name;
    var at := |name| - |suffix|;
    if suffix == [] {
      LastIndexOfAt(name, '.', -1);
    } else {
      assert name[at] == '.';
      LastIndexOfAt(name, '.', at);
      assert name[at..] == suffix;
    }
  }

  // ---------------------------------------------------------------- case

  /** Lower-casing moves no dot and no slash. */
  lemma LowerLastIndexOf(s: string, c: char)
    requires c == '.' || c == '/'
    ensures LastIndexOf(Lower(s), c) == LastIndexOf(s, c)
  {
    var k := LastIndexOf(s, c);
    LastIndexOfAt(Lower(s), c, k);
  }

  lemma LowerStripTrailingSlashes(p: Path)
    ensures StripTrailingSlashes(Lower(p)) == Lower(StripTrailingSlashes(p))
    decreases |p|
  {
    if p != [] && p[|p| - 1] == '/' {
      assert Lower(p)[..|p| - 1] == Lower(p[..|p| - 1]);
      LowerStripTrailingSlashes(p[..|p| - 1]);
    }
  }

  lemma LowerDrop(s: string, i: nat)
    requires i <= |s|
    ensures Lower(s)[i..] == Lower(s[i..])
  {
  }

  lemma LowerName(p: Path)
    ensures Name(Lower(p)) == Lower(Name(p))
  {
    var q := StripTrailingSlashes(p);
    LowerStripTrailingSlashes(p);
    LowerLastIndexOf(q, '/');
    LowerDrop(q, LastIndexOf(q, '/') + 1);
  }

  /** The suffix of a lower-cased path is the lower-cased suffix. */
  lemma LowerSuffix(p: Path)
    ensures Suffix(Lower(p)) == Lower(Suffix(p))
  {
    var name := Name(p);
    LowerName(p);
    LowerLastIndexOf(name, '.');
    var i := LastIndexOf(name, '.');
    if 0 < i < |name| - 1 {
      LowerDrop(name, i);
    }
  }
}
