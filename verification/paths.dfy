/** The parent directory of a path, as `PathBuf::parent` computes it for the
    absolute, normalised paths that `locate` prints (src/main.rs:38-39). */
module Paths {

  /** Index of the last '/' in `p`, or -1 when there is none. */
  function LastSlash(p: string): (i: int)
    ensures -1 <= i < |p|
    ensures 0 <= i ==> p[i] == '/'
    ensures forall j :: i < j < |p| ==> p[j] != '/'
  {
    if p == [] then -1
    else if p[|p| - 1] == '/' then |p| - 1
    else LastSlash(p[..|p| - 1])
  }

  /** Everything before the last '/', except that a file directly under the
      root has the root "/" as its parent and a bare name has the empty parent. */
  function Parent(p: string): (r: string)
    ensures |r| <= |p|
  {
    var i := LastSlash(p);
    if i < 0 then "" else if i == 0 then "/" else p[..i]
  }

  /** The parent is a prefix of the path; it is empty exactly when the path
      has no '/'; an absolute path has an absolute parent. */
  lemma ParentShape(p: string)
    ensures Parent(p) <= p
    ensures Parent(p) == [] <==> '/' !in p
    ensures p != [] && p[0] == '/' ==> Parent(p) != [] && Parent(p)[0] == '/'
  {
  }

  /** The last component: everything after the last '/'. */
  function FileName(p: string): string
  {
    p[LastSlash(p) + 1..]
  }

  /** Parent and file name put back together give the path again: with a
      separator between them, unless the only '/' that separates them is the
      root itself or there is no '/' at all. */
  lemma ParentFileNameRoundTrip(p: string)
    ensures '/' !in FileName(p)
    ensures 0 < LastSlash(p) ==> p == Parent(p) + "/" + FileName(p)
    ensures LastSlash(p) == 0 ==> Parent(p) == "/" && p == Parent(p) + FileName(p)
    ensures LastSlash(p) < 0 ==> Parent(p) == "" && p == FileName(p)
  {
    var i := LastSlash(p);
    NoSlashAfter(p, i);
    if 0 <= i {
      SplitAt(p, i);
    }
  }

  /** Nothing after the last '/' is a '/'. */
  lemma NoSlashAfter(p: string, i: int)
    requires -1 <= i < |p|
    requires forall j :: i < j < |p| ==> p[j] != '/'
    ensures '/' !in p[i + 1..]
  {
    var name := p[i + 1..];
    forall k | 0 <= k < |name| ensures name[k] != '/' {
      assert name[k] == p[i + 1 + k];
    }
  }

  /** A string is what comes before position i, the character at i, and
      what comes after it. */
  lemma SplitAt(p: string, i: nat)
    requires i < |p|
    ensures p == p[..i] + [p[i]] + p[i + 1..]
  {
  }
}
