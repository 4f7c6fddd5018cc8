/** The two Node `path` (POSIX flavour) functions the git-init tool calls:
    `path.dirname`, for the parent-directory check, and `path.join`, for the
    repository-marker path. */
module PosixPath {

  /** The scan of `dirname`, from index `i` down to index 1: skip the trailing
      slashes (`matchedSlash` holds while only slashes have been seen) and then
      stop at the next slash. The result is that slash's index, or 0 when
      there is none at an index of at least 1. */
  function ParentEnd(p: string, i: int, matchedSlash: bool): (e: nat)
    requires i < |p|
    ensures e <= if i < 0 then 0 else i
    ensures e > 0 ==> p[e] == '/'
    decreases i
  {
    if i < 1 then 0
    else if p[i] == '/' then (if !matchedSlash then i else ParentEnd(p, i - 1, true))
    else ParentEnd(p, i - 1, false)
  }

  /** `path.dirname(p)`: the path without its last segment (and without the
      slashes that trail it); `/` for a root-level path, `.` for a relative
      one with a single segment. */
  function Dirname(p: string): (d: string)
    ensures d == "." || d == "/" || d == "//" || (|d| < |p| && d == p[..|d|] && p[|d|] == '/')
  {
    if p == [] then "."
    else
      var e := ParentEnd(p, |p| - 1, true);
      if e == 0 then (if p[0] == '/' then "/" else ".")
      else if p[0] == '/' && e == 1 then "//"
      else p[..e]
  }

  /** Index `i` begins a segment: it is the start of `p` or follows a slash. */
  predicate SegmentStart(p: string, i: int)
    requires 0 <= i <= |p|
  {
    i == 0 || p[i - 1] == '/'
  }

  /** Index `j` ends a segment: it is the end of `p` or holds a slash. */
  predicate SegmentEnd(p: string, j: int)
    requires 0 <= j <= |p|
  {
    j == |p| || p[j] == '/'
  }

  /** `p` is a path that `path.normalize` leaves unchanged: non-empty, with no
      empty, `.` or `..` segment (a leading slash aside) and no trailing slash
      unless `p` is the root. */
  predicate NormalForm(p: string) {
    p == "/" ||
    (p != [] && p[|p| - 1] != '/' &&
     (forall i :: 1 <= i < |p| && p[i] == '/' ==> p[i - 1] != '/') &&
     (forall i :: 0 <= i < |p| && p[i] == '.' && SegmentStart(p, i) ==>
        !SegmentEnd(p, i + 1) && !(i + 1 < |p| && p[i + 1] == '.' && SegmentEnd(p, i + 2))))
  }

  /** `path.join(p, seg)` for a `p` in normal form and a segment other than
      `.` and `..`: `seg` appended as a new last segment, with exactly one
      slash between. */
  function Join(p: string, seg: string): (r: string)
    ensures |p| + |seg| <= |r| && r[..|p|] == p && r[|r| - |seg|..] == seg
    ensures p == [] || p[|p| - 1] == '/' ==> |r| == |p| + |seg|
    ensures p != [] && p[|p| - 1] != '/' ==> |r| == |p| + 1 + |seg| && r[|p|] == '/'
  {
    if p == [] then seg else if p[|p| - 1] == '/' then p + seg else p + "/" + seg
  }

  /** Once the scan is past the trailing slashes and only non-slash
      characters lie between index `k` and index `i`, it stops at the slash at `k`. */
  lemma {:induction false} ParentEndFindsSlash(p: string, i: int, k: nat)
    requires 1 <= k <= i < |p| && p[k] == '/'
    requires forall j :: k < j <= i ==> p[j] != '/'
    ensures ParentEnd(p, i, false) == k
    decreases i
  {
    if i > k {
      ParentEndFindsSlash(p, i - 1, k);
    }
  }

  /** A scan over non-slash characters down to index 1 finds no slash. */
  lemma {:induction false} ParentEndNoSlash(q: string, i: int)
    requires i < |q| && forall j :: 0 < j <= i ==> q[j] != '/'
    ensures ParentEnd(q, i, false) == 0 && ParentEnd(q, i, true) == 0
    decreases i
  {
    if i >= 1 {
      ParentEndNoSlash(q, i - 1);
    }
  }

  /** The parent of `p` joined with a slash-free segment other than `.` and
      `..` is `p` again, for a `p` in normal form. */
  lemma DirnameOfJoin(p: string, seg: string)
    requires NormalForm(p)
    requires seg != [] && seg != "." && seg != ".." && forall j :: 0 <= j < |seg| ==> seg[j] != '/'
    ensures Dirname(Join(p, seg)) == p
  {
    if p == "/" {
      DirnameOfRootJoin(seg);
    } else {
      DirnameOfChildJoin(p, seg);
    }
  }

  /** A segment joined onto the root has the root as its parent. */
  lemma DirnameOfRootJoin(seg: string)
    requires seg != [] && forall j :: 0 <= j < |seg| ==> seg[j] != '/'
    ensures Dirname(Join("/", seg)) == "/"
  {
    var q := "/" + seg;
    assert Join("/", seg) == q;
    forall j | 0 < j < |q| ensures q[j] != '/' {
      assert q[j] == seg[j - 1];
    }
    ParentEndNoSlash(q, |q| - 1);
  }

  /** A segment joined onto a path without a trailing slash has that path as its parent. */
  lemma DirnameOfChildJoin(p: string, seg: string)
    requires p != [] && p[|p| - 1] != '/'
    requires seg != [] && forall j :: 0 <= j < |seg| ==> seg[j] != '/'
    ensures Dirname(Join(p, seg)) == p
  {
    var q := p + "/" + seg;
    assert Join(p, seg) == q;
    forall j | |p| < j < |q| ensures q[j] != '/' {
      assert q[j] == seg[j - |p| - 1];
    }
    assert q[|p|] == '/';
    ParentEndFindsSlash(q, |q| - 2, |p|);
    assert ParentEnd(q, |q| - 1, true) == |p|;
    assert q[..|p|] == p;
  }
}
