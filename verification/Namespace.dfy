/** How the walk from the root reacts to a change of one directory entry. */
module Namespace {
  import opened Layout
  import opened Paths
  import opened Volumes

  /** One step of the walk, forgetting where the entry was found. */
  function Step(nodes: map<nat, Node>, d: nat, q: Path): Option<nat> {
    var l := Search(nodes, d, q);
    if l.Found? then Some(l.ino) else None
  }

  function Reach(nodes: map<nat, Node>, q: Path): Option<nat>
    requires Absolute(q)
  {
    var l := Walk(nodes, q);
    if l.Found? then Some(l.ino) else None
  }

  /** The directory in which the walk looks for q. */
  function ReachUp(nodes: map<nat, Node>, q: Path): Option<nat>
    requires Absolute(q)
  {
    var k := LastSlash(q);
    if k == 0 then Some(ROOT_INO) else Reach(nodes, q[..k])
  }

  /** Directories answer every question but p as before, and p itself with `v`; v is a leaf. */
  ghost predicate OneEntryChanged(a: map<nat, Node>, b: map<nat, Node>, p: Path, v: Option<nat>)
    requires Absolute(p)
  {
    && (forall d, q | q != p && Absolute(q) :: Step(b, d, q) == Step(a, d, q))
    && (ReachUp(a, p).Some? ==> Step(b, ReachUp(a, p).value, p) == v)
    && (ReachUp(a, p).None? ==> v.None?)
    && (v.Some? ==> forall q | Absolute(q) && q != p :: Step(b, v.value, q).None?)
  }

  lemma {:induction false} ReachSame(a: map<nat, Node>, b: map<nat, Node>, p: Path, v: Option<nat>, q: Path)
    requires Absolute(p) && Absolute(q) && !Visits(q, p)
    requires OneEntryChanged(a, b, p, v)
    ensures Reach(b, q) == Reach(a, q)
    decreases |q|
  {
    var k := LastSlash(q);
    VisitsParent(q, p);
    if k > 0 {
      ReachSame(a, b, p, v, q[..k]);
      if Reach(a, q[..k]).Some? {
        var d := Reach(a, q[..k]).value;
        assert Step(b, d, q) == Step(a, d, q);
      }
    } else {
      assert Step(b, ROOT_INO, q) == Step(a, ROOT_INO, q);
    }
  }

  lemma ReachChanged(a: map<nat, Node>, b: map<nat, Node>, p: Path, v: Option<nat>)
    requires Absolute(p) && OneEntryChanged(a, b, p, v)
    ensures Reach(b, p) == v
  {
    var k := LastSlash(p);
    if k > 0 {
      assert !Visits(p[..k], p);
      ReachSame(a, b, p, v, p[..k]);
    }
  }

  lemma {:induction false} ReachBelow(a: map<nat, Node>, b: map<nat, Node>, p: Path, v: Option<nat>, q: Path)
    requires Absolute(p) && Absolute(q) && Under(q, p)
    requires OneEntryChanged(a, b, p, v)
    ensures Reach(b, q).None?
    decreases |q|
  {
    var k := LastSlash(q);
    VisitsParent(q, p);
    if q[..k] == p {
      ReachChanged(a, b, p, v);
    } else {
      ReachBelow(a, b, p, v, q[..k]);
    }
  }

  /** A one-entry change of the directories is a one-entry change of the namespace, except that
      whatever lay below the entry is no longer reachable. */
  lemma ResolveChanged(a: map<nat, Node>, b: map<nat, Node>, p: Path, v: Option<nat>, q: Path)
    requires Absolute(p) && p != "/" && OneEntryChanged(a, b, p, v)
    ensures Resolve(b, q) ==
            if q == p then v
            else if Under(q, p) then None
            else Resolve(a, q)
  {
    if Absolute(q) && q != "/" {
      if q == p {
        ReachChanged(a, b, p, v);
      } else if Under(q, p) {
        ReachBelow(a, b, p, v, q);
      } else {
        ReachSame(a, b, p, v, q);
      }
    }
  }

  /** Nothing below a name that does not resolve resolves. */
  lemma {:induction false} BelowMissing(a: map<nat, Node>, p: Path, q: Path)
    requires Absolute(p) && Absolute(q) && Under(q, p) && Reach(a, p).None?
    ensures Reach(a, q).None?
    decreases |q|
  {
    var k := LastSlash(q);
    VisitsParent(q, p);
    if q[..k] != p {
      BelowMissing(a, p, q[..k]);
    }
  }

  /** A path that begins with two slashes is looked up through an entry "/" of the root. */
  lemma {:induction false} DoubleSlash(a: map<nat, Node>, p: Path)
    requires |p| >= 2 && p[0] == '/' && p[1] == '/'
    requires Step(a, ROOT_INO, "/").None?
    ensures ReachUp(a, p).None? && Reach(a, p).None?
    decreases |p|
  {
    var k := LastSlash(p);
    assert k >= 1;
    if k == 1 {
      assert p[..1] == "/";
    } else {
      DoubleSlash(a, p[..k]);
    }
  }

  /** For other paths the walk and bfs_dirname agree on the parent. */
  lemma UpIsDirname(a: map<nat, Node>, p: Path)
    requires Walkable(p)
    ensures ReachUp(a, p) == Resolve(a, Dirname(p))
    ensures LastSlash(p) == 0 ==> Dirname(p) == "/"
    ensures LastSlash(p) > 0 ==> Dirname(p) == p[..LastSlash(p)] && Absolute(Dirname(p)) && Dirname(p) != "/"
  {
    var k := LastSlash(p);
    if k > 0 {
      assert p[..k][0] == '/';
      assert k >= 2;
      assert |p[..k]| == k;
    }
  }

  /** Nothing below a file, or below a directory without entries, resolves. */
  lemma {:induction false} BelowLeaf(a: map<nat, Node>, p: Path, q: Path)
    requires Absolute(p) && Absolute(q) && Under(q, p) && Reach(a, p).Some?
    requires forall x | Absolute(x) :: Step(a, Reach(a, p).value, x).None?
    ensures Reach(a, q).None?
    decreases |q|
  {
    var k := LastSlash(q);
    VisitsParent(q, p);
    if q[..k] != p {
      BelowLeaf(a, p, q[..k]);
    }
  }

  /** An inode no entry leads to can be dropped without any path noticing. */
  lemma {:induction false} ReachAvoids(a: map<nat, Node>, i: nat, q: Path)
    requires Absolute(q) && i != ROOT_INO
    requires forall d, x | Absolute(x) :: Step(a, d, x) != Some(i)
    ensures Reach(a - {i}, q) == Reach(a, q) != Some(i)
    decreases |q|
  {
    var k := LastSlash(q);
    if k > 0 {
      ReachAvoids(a, i, q[..k]);
      if Reach(a, q[..k]).Some? {
        assert Step(a, Reach(a, q[..k]).value, q) != Some(i);
      }
    } else {
      assert Step(a, ROOT_INO, q) != Some(i);
    }
  }

  lemma ResolveAvoids(a: map<nat, Node>, i: nat, q: Path)
    requires i != ROOT_INO
    requires forall d, x | Absolute(x) :: Step(a, d, x) != Some(i)
    ensures Resolve(a - {i}, q) == Resolve(a, q) != Some(i)
  {
    if Absolute(q) {
      ReachAvoids(a, i, q);
    }
  }

  /** The same for an inode that only p leads to, on walks that do not visit p. */
  lemma {:induction false} ReachAround(a: map<nat, Node>, i: nat, p: Path, q: Path)
    requires Absolute(p) && Absolute(q) && i != ROOT_INO && !Visits(q, p)
    requires forall d, x | Absolute(x) && x != p :: Step(a, d, x) != Some(i)
    ensures Reach(a - {i}, q) == Reach(a, q) != Some(i)
    decreases |q|
  {
    var k := LastSlash(q);
    VisitsParent(q, p);
    if k > 0 {
      ReachAround(a, i, p, q[..k]);
      if Reach(a, q[..k]).Some? {
        assert Step(a, Reach(a, q[..k]).value, q) != Some(i);
      }
    } else {
      assert Step(a, ROOT_INO, q) != Some(i);
    }
  }
}
