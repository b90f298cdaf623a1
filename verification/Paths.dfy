/** Absolute path names, split the way the directory walk and bfs_dirname split them. */
module Paths {
  type Path = string

  /** A path name as C++ holds it, bytes other than NUL: what can be entered in a directory. */
  type PlainPath = p: string | Plain(p) witness ""

  predicate Plain(name: string) {
    forall i :: 0 <= i < |name| ==> 0 < name[i] as int < 256
  }

  predicate Absolute(p: Path) {
    |p| > 0 && p[0] == '/'
  }

  /** Position of the last '/' in p[..k + 1], or 0 when there is none after position 0. */
  function LastSlashTo(p: Path, k: nat): (r: nat)
    requires k < |p|
    ensures r <= k
    ensures r > 0 ==> p[r] == '/'
    ensures forall j :: r < j <= k ==> p[j] != '/'
  {
    if k == 0 || p[k] == '/' then k else LastSlashTo(p, k - 1)
  }

  function LastSlash(p: Path): (r: nat)
    requires |p| > 0
    ensures r < |p|
    ensures r > 0 ==> p[r] == '/'
    ensures forall j :: r < j < |p| ==> p[j] != '/'
  {
    LastSlashTo(p, |p| - 1)
  }

  /** bfs_dirname: everything before the last '/', "/" for a top-level name, "." when there is no '/'. */
  function Dirname(p: Path): Path {
    if '/' !in p then "."
    else if LastSlash(p) == 0 then "/"
    else p[..LastSlash(p)]
  }

  /** q lies strictly below p in the tree of names. */
  predicate Under(q: Path, p: Path) {
    |q| > |p| && q[..|p|] == p && q[|p|] == '/'
  }

  /** The walk towards q looks up the name p. */
  predicate Visits(q: Path, p: Path) {
    q == p || Under(q, p)
  }

  /** Names the walk can reach: the second character is not another '/'. */
  predicate Walkable(p: Path) {
    |p| >= 2 && p[0] == '/' && p[1] != '/'
  }

  /** The walk to q is the walk to its parent followed by q itself. */
  lemma VisitsParent(q: Path, p: Path)
    requires Absolute(q) && Absolute(p)
    ensures LastSlash(q) > 0 ==>
              (Visits(q, p) <==> q == p || Visits(q[..LastSlash(q)], p))
    ensures LastSlash(q) == 0 ==> (Visits(q, p) <==> q == p)
  {
    var k := LastSlash(q);
    if Under(q, p) {
      assert q[|p|] == '/';
      assert |p| <= k;
      assert k > 0;
      if |p| < k {
        assert q[..k][..|p|] == p;
        assert q[..k][|p|] == '/';
      } else {
        assert q[..k] == p;
      }
    }
    if k > 0 && Visits(q[..k], p) {
      if q[..k] == p {
        assert Under(q, p);
      } else {
        assert q[..k][..|p|] == q[..|p|];
      }
    }
  }
}
