/** The Node.js path helpers the core relies on (`nodeNormalizePath`, `path.resolve`,
    `path.dirname`), modelled for "/"-separated paths: normalisation canonicalises the separator,
    resolution joins a relative path onto a base and drops trailing separators, and `dirname`
    drops the last segment. `..` and `.` segments are not interpreted. */
module Paths {
  import opened Strings

  type Path = string

  function Canonical(c: char): char {
    if c == '\\' then '/' else c
  }

  /** `nodeNormalizePath`: every backslash becomes "/". */
  function Normalize(p: Path): (r: Path)
    ensures |r| == |p|
    ensures '\\' !in r
    ensures forall i :: 0 <= i < |p| ==> r[i] == Canonical(p[i])
  {
    seq(|p|, i requires 0 <= i < |p| => Canonical(p[i]))
  }

  lemma NormalizeUnchanged(p: Path)
    requires '\\' !in p
    ensures Normalize(p) == p
  {
  }

  lemma NormalizeIdempotent(p: Path)
    ensures Normalize(Normalize(p)) == Normalize(p)
  {
  }

  /** Drops trailing "/" characters, keeping a lone "/". */
  function StripTrailingSeparators(p: Path): (r: Path)
    ensures |r| <= |p| && r == p[..|r|]
    ensures |p| > 0 ==> |r| > 0
    ensures |r| > 1 ==> r[|r| - 1] != '/'
  {
    if |p| > 1 && p[|p| - 1] == '/' then StripTrailingSeparators(p[..|p| - 1]) else p
  }

  /** `path.resolve(base, p)`: an absolute `p` stands alone; a relative one is joined onto `base`. */
  function Resolve(base: Path, p: Path): (r: Path)
    ensures p != "" ==> r != ""
  {
    if |p| > 0 && p[0] == '/' then StripTrailingSeparators(p)
    else if p == "" then StripTrailingSeparators(base)
    else if |base| > 0 && base[|base| - 1] == '/' then StripTrailingSeparators(base + p)
    else StripTrailingSeparators(base + "/" + p)
  }

  /** A trailing separator on the path being resolved makes no difference. */
  lemma ResolveIgnoresTrailingSeparator(base: Path, p: Path)
    requires p != ""
    ensures Resolve(base, p + "/") == Resolve(base, p)
  {
    if |p| > 0 && p[0] == '/' {
      assert (p + "/")[..|p|] == p;
    } else if |base| > 0 && base[|base| - 1] == '/' {
      assert base + (p + "/") == (base + p) + "/";
      assert ((base + p) + "/")[..|base + p|] == base + p;
    } else {
      assert base + "/" + (p + "/") == (base + "/" + p) + "/";
      assert ((base + "/" + p) + "/")[..|base + "/" + p|] == base + "/" + p;
    }
  }

  /** `path.dirname(p)`: everything before the last "/", "/" for a top-level entry and "." when
      there is no separator. */
  function Dirname(p: Path): (r: Path)
    ensures r == "." || r == "/" || (|r| < |p| && r == p[..|r|] && p[|r|] == '/')
  {
    if p == [] then "."
    else
      var k := LastIndexOfChar(p, '/', |p| - 1);
      if k == -1 then "." else if k == 0 then "/" else p[..k]
  }

  lemma DirnameKeepsNormalized(p: Path)
    requires '\\' !in p
    ensures Normalize(Dirname(p)) == Dirname(p)
  {
    var d := Dirname(p);
    assert '\\' !in d;
    NormalizeUnchanged(d);
  }

  /** `p === d || p.startsWith(d + "/")`: the boundary-qualified prefix test. */
  predicate WithinDirectory(p: Path, d: Path) {
    p == d || StartsWith(p, d + "/")
  }

  /** For paths already in normal form, the test is unaffected by normalisation. */
  lemma WithinNormalized(p: Path, d: Path)
    requires '\\' !in p && '\\' !in d
    ensures WithinDirectory(Normalize(p), Normalize(d)) == WithinDirectory(p, d)
  {
    NormalizeUnchanged(p);
    NormalizeUnchanged(d);
  }

  /** Paths that differ inside the directory's own name are not nested in it. */
  lemma DifferentNameIsNotWithin(p: Path, d: Path, k: nat)
    requires k < |d| && k < |p| && p[k] != d[k]
    ensures !WithinDirectory(p, d)
  {
  }

  /** A path that merely extends the directory's last segment is not nested in it. */
  lemma SiblingIsNotWithin(d: Path, p: Path)
    requires StartsWith(p, d) && |p| > |d| && p[|d|] != '/'
    ensures !WithinDirectory(p, d)
  {
  }
}
