/** Every inode has a path: which requests leave one behind that no path leads to. */
module Tree {
  import opened Layout
  import opened Paths
  import opened Directory
  import opened Volumes
  import opened Namespace
  import opened Invariants
  import opened Growth
  import opened CreateOps
  import opened Removal
  import opened RemoveOps
  import opened RenameOps
  import opened HandleOps
  import opened DirWrites
  import opened Views
  import opened NewVolumes
  import opened Outcomes
  import opened Runs

  ghost predicate HasPath(nodes: Nodes, i: nat) {
    exists p: Path :: Resolve(nodes, p) == Some(i)
  }

  /** Every inode is reached from the root; `but` need not be. */
  ghost predicate ReachedBut(nodes: Nodes, but: nat) {
    forall i :: i in nodes && i != ROOT_INO && i != but ==> HasPath(nodes, i)
  }

  ghost predicate Reached(nodes: Nodes) {
    ReachedBut(nodes, ROOT_INO)
  }

  /** In a sound volume the path is the only one. */
  lemma ReachedOnce(v: Volume, i: nat)
    requires Sound(v) && Reached(v.nodes) && i in v.nodes && i != ROOT_INO
    ensures exists p: Path ::
              Resolve(v.nodes, p) == Some(i) && forall q: Path :: Resolve(v.nodes, q) == Some(i) ==> q == p
  {
    hide Sound;
    assert HasPath(v.nodes, i);
    var p: Path :| Resolve(v.nodes, p) == Some(i);
    forall q: Path | Resolve(v.nodes, q) == Some(i) ensures q == p {
      OnePath(v, p, q);
    }
  }

  lemma NewReached(ds: nat, nb: nat)
    requires ds < nb
    ensures Reached(NewVolume(ds, nb).nodes)
  {
  }

  // ---- requests that enter or remove one name ---------------------------------------

  /** A new inode i under the name p, all other paths as before. */
  lemma AddedIff(v: Volume, w: Volume, p: Path, i: nat)
    requires Sound(v) && Reached(v.nodes) && i !in v.nodes && i != ROOT_INO && w.nodes.Keys == v.nodes.Keys + {i}
    requires Resolve(v.nodes, p).None?
    requires forall q: Path :: Resolve(w.nodes, q) == if q == p && Walkable(p) then Some(i) else Resolve(v.nodes, q)
    ensures Reached(w.nodes) <==> Walkable(p)
  {
    hide Sound, Resolve;
    if Walkable(p) {
      forall j | j in w.nodes && j != ROOT_INO ensures HasPath(w.nodes, j) {
        if j == i {
          assert Resolve(w.nodes, p) == Some(i);
        } else {
          assert HasPath(v.nodes, j);
          var q: Path :| Resolve(v.nodes, q) == Some(j);
          assert Resolve(w.nodes, q) == Some(j);
        }
      }
    } else if HasPath(w.nodes, i) {
      var q: Path :| Resolve(w.nodes, q) == Some(i);
      Leads(v, q);
    }
  }

  lemma Leads(v: Volume, q: Path)
    requires Sound(v) && Resolve(v.nodes, q).Some?
    ensures Resolve(v.nodes, q).value in v.nodes
  {
    FoundLive(v, q);
  }

  lemma CreateTreeIff(v: Volume, p: PlainPath)
    requires Sound(v) && Reached(v.nodes) && !Create(v, p).Fatal?
    ensures Reached(Create(v, p).vol.nodes) <==> (Create(v, p).Ok? ==> Walkable(p))
  {
    hide Sound, Create, Resolve, Reached, AllocIno;
    CreateSound(v, p);
    if Create(v, p).Ok? {
      var d, i, v1, m, n := CreateExtends(v, p);
      ExtendsKeys(v, Create(v, p).vol, d, p, i, m, n);
      forall q: Path
        ensures Resolve(Create(v, p).vol.nodes, q) == if q == p && Walkable(p) then Some(i) else Resolve(v.nodes, q)
        ensures Resolve(v.nodes, p).None?
      {
        CreateResolves(v, p, q);
      }
      CreateResolves(v, p, p);
      AddedIff(v, Create(v, p).vol, p, i);
    }
  }

  lemma MkdirTreeIff(v: Volume, p: PlainPath)
    requires Sound(v) && Reached(v.nodes) && !Mkdir(v, p).Fatal?
    ensures Reached(Mkdir(v, p).vol.nodes) <==> (Mkdir(v, p).Ok? ==> Walkable(p))
  {
    hide Sound, Mkdir, Resolve, Reached, AllocIno;
    MkdirSound(v, p);
    if Mkdir(v, p).Ok? {
      var d, i, m, n := MkdirExtends(v, p);
      ExtendsKeys(v, Mkdir(v, p).vol, d, p, i, m, n);
      forall q: Path
        ensures Resolve(Mkdir(v, p).vol.nodes, q) == if q == p && Walkable(p) then Some(i) else Resolve(v.nodes, q)
      {
        MkdirResolves(v, p, q);
      }
      MkdirResolves(v, p, p);
      AddedIff(v, Mkdir(v, p).vol, p, i);
    }
  }

  lemma ExtendsKeys(v: Volume, w: Volume, d: nat, p: Path, i: nat, m: Node, n: Node)
    requires Extends(v, w, d, p, i, m, n)
    ensures i !in v.nodes && i != ROOT_INO && w.nodes.Keys == v.nodes.Keys + {i}
  {
  }

  /** The inode of p gone together with p. */
  lemma RemovedTree(v: Volume, w: Volume, p: Path, i: nat)
    requires Reached(v.nodes) && Resolve(v.nodes, p) == Some(i) && w.nodes.Keys == v.nodes.Keys - {i}
    requires forall q: Path :: Resolve(w.nodes, q) == if q == p then None else Resolve(v.nodes, q)
    ensures Reached(w.nodes)
  {
    hide Resolve;
    forall j | j in w.nodes && j != ROOT_INO ensures HasPath(w.nodes, j) {
      assert HasPath(v.nodes, j);
      var q: Path :| Resolve(v.nodes, q) == Some(j);
      assert Resolve(w.nodes, q) == Some(j);
    }
  }

  lemma RemoveKeys(v: Volume, p: Path)
    requires var l := GetDe(v.nodes, p); l.Found? && l.ino in v.nodes && RemoveEntry(v, p, l).Ok?
    ensures var l := GetDe(v.nodes, p); RemoveEntry(v, p, l).vol.nodes.Keys == v.nodes.Keys - {l.ino}
  {
    hide GetDe, Freed;
  }

  lemma UnlinkTree(v: Volume, p: Path)
    requires Sound(v) && Reached(v.nodes) && !Unlink(v, p).Fatal?
    ensures Reached(Unlink(v, p).vol.nodes)
  {
    hide Sound, GetDe, RemoveEntry, Reached;
    UnlinkSound(v, p);
    if Unlink(v, p).Ok? {
      RemoveKeys(v, p);
      forall q: Path ensures Resolve(Unlink(v, p).vol.nodes, q) == if q == p then None else Resolve(v.nodes, q) {
        UnlinkResolves(v, p, q);
      }
      RemovedTree(v, Unlink(v, p).vol, p, GetDe(v.nodes, p).ino);
    }
  }

  lemma RmdirTree(v: Volume, p: Path)
    requires Sound(v) && Reached(v.nodes) && !Rmdir(v, p).Fatal?
    ensures Reached(Rmdir(v, p).vol.nodes)
  {
    hide Sound, GetDe, RemoveEntry, Reached;
    RmdirSound(v, p);
    if Rmdir(v, p).Ok? {
      RemoveKeys(v, p);
      forall q: Path ensures Resolve(Rmdir(v, p).vol.nodes, q) == if q == p then None else Resolve(v.nodes, q) {
        RmdirResolves(v, p, q);
      }
      RemovedTree(v, Rmdir(v, p).vol, p, GetDe(v.nodes, p).ino);
    }
  }

  /** Only kinds and dentries matter. */
  lemma SameReached(a: Nodes, b: Nodes)
    requires SameTree(a, b)
    ensures Reached(a) <==> Reached(b)
  {
    hide Resolve;
    forall q: Path ensures Resolve(b, q) == Resolve(a, q) {
      ResolveSame(a, b, q);
    }
    forall i: nat ensures HasPath(a, i) <==> HasPath(b, i) {
      if HasPath(a, i) {
        var p: Path :| Resolve(a, p) == Some(i);
        assert Resolve(b, p) == Some(i);
      }
      if HasPath(b, i) {
        var p: Path :| Resolve(b, p) == Some(i);
        assert Resolve(a, p) == Some(i);
      }
    }
  }

  // ---- rename -----------------------------------------------------------------------

  /** An inode without a name has no path. */
  lemma UnnamedLost(u: Volume, f: nat)
    requires Sound(u) && Unnamed(u.nodes, f) && f != ROOT_INO
    ensures !HasPath(u.nodes, f)
  {
    hide Owned, Marked, Counted;
    if HasPath(u.nodes, f) {
      var q: Path :| Resolve(u.nodes, q) == Some(f);
      FoundEntry(u.nodes, u.ds, u.nb, q);
    }
  }

  /** After the first half of a rename all inodes but the source's are reached. */
  lemma DetachTree(v: Volume, fr: Path)
    requires Sound(v) && Reached(v.nodes) && Detach(v, fr).Ok?
    ensures var u, f := Detach(v, fr).vol, Detach(v, fr).val;
            Sound(u) && Loose(u, f) && ReachedBut(u.nodes, f) && !HasPath(u.nodes, f)
  {
    hide Sound, Detach, Resolve, Unnamed;
    DetachSound(v, fr);
    var u, f := Detach(v, fr).vol, Detach(v, fr).val;
    UnnamedLost(u, f);
    forall i | i in u.nodes && i != ROOT_INO && i != f ensures HasPath(u.nodes, i) {
      assert HasPath(v.nodes, i);
      var q: Path :| Resolve(v.nodes, q) == Some(i);
      DetachResolves(v, fr, q);
    }
  }

  /** Directory t holds a name besides its dots. */
  lemma HasChild(u: Volume, t: nat) returns (j: nat)
    requires Sound(u) && t in u.nodes && u.nodes[t].kind == Dir && u.nodes[t].links > 2
    ensures Names(u.nodes, t, j)
  {
    hide Owned, Marked, Counted, Named;
    assert NodeOk(u.nodes[t], u.ds);
    var s := u.nodes[t].slots;
    if forall i :: i in LiveSet(s) ==> i < 2 {
      assert LiveSet(s) <= {0, 1};
      SubsetCard(LiveSet(s), {0, 1});
      assert false;
    }
    j :| j in LiveSet(s) && j >= 2;
  }

  /** A child of the directory that was replaced has lost its only name. */
  lemma ChildLost(u: Volume, to: PlainPath, f: nat, t: nat)
    requires Sound(u) && Loose(u, f) && Resolve(u.nodes, to) == Some(t) && Attach(u, to, f).Ok?
    requires t in u.nodes && u.nodes[t].kind == Dir && u.nodes[t].links > 2
    ensures !Reached(Attach(u, to, f).vol.nodes)
  {
    hide Sound, Attach, Unnamed, Fits;
    var w := Attach(u, to, f).vol;
    ReplaceIs(u, to, f);
    AttachKeys(u, to, f);
    var j := HasChild(u, t);
    var c := u.nodes[t].slots[j].ino;
    ChildApart(u, to, t, j);
    LooseChild(u, f, t, j);
    if HasPath(w.nodes, c) {
      var q: Path :| Resolve(w.nodes, q) == Some(c);
      AttachResolves(u, to, f, q);
      ChildPath(u, to, t, j, q);
    }
    assert !HasPath(w.nodes, c);
  }

  lemma AttachKeys(u: Volume, to: PlainPath, f: nat)
    requires Attach(u, to, f).Ok?
    ensures var w, t := Attach(u, to, f).vol, GetDe(u.nodes, to);
            w.nodes.Keys == if t.Found? then u.nodes.Keys - {t.ino} else u.nodes.Keys
  {
    hide GetDe, Freed, Insert;
  }

  lemma ChildApart(u: Volume, to: Path, t: nat, j: nat)
    requires Sound(u) && Resolve(u.nodes, to) == Some(t) && to != "/" && Names(u.nodes, t, j)
    ensures var c := u.nodes[t].slots[j].ino; c in u.nodes && c != ROOT_INO && c != t && t != ROOT_INO
  {
    hide Owned, Marked, Counted;
    FoundEntry(u.nodes, u.ds, u.nb, to);
  }

  lemma LooseChild(u: Volume, f: nat, t: nat, j: nat)
    requires Loose(u, f) && Names(u.nodes, t, j)
    ensures u.nodes[t].slots[j].ino != f
  {
  }

  /** The only path of a child of `to` lies below it. */
  lemma ChildPath(u: Volume, to: Path, t: nat, j: nat, q: Path)
    requires Sound(u) && Resolve(u.nodes, to) == Some(t) && to != "/" && Names(u.nodes, t, j)
    requires Resolve(u.nodes, q) == Some(u.nodes[t].slots[j].ino)
    ensures Under(q, to)
  {
    hide Owned, Marked, Counted, Walk;
    ChildApart(u, to, t, j);
    FoundEntry(u.nodes, u.ds, u.nb, q);
    assert Resolve(u.nodes, Dirname(q)) == Some(t);
    OnePath(u, Dirname(q), to);
  }

  /** The second half: everything is reached if and only if the new name can be walked to and the target was
      no directory with names in it. */
  lemma AttachTreeIff(u: Volume, to: PlainPath, f: nat)
    requires Sound(u) && Loose(u, f) && ReachedBut(u.nodes, f) && Attach(u, to, f).Ok?
    ensures Resolve(u.nodes, to).Some? ==> Resolve(u.nodes, to).value in u.nodes
    ensures Reached(Attach(u, to, f).vol.nodes) <==>
            && Walkable(to)
            && (Resolve(u.nodes, to).Some? && u.nodes[Resolve(u.nodes, to).value].kind == Dir ==>
                  u.nodes[Resolve(u.nodes, to).value].links <= 2)
  {
    hide Sound, Attach, Unnamed, Fits, Resolve, Reached;
    var w := Attach(u, to, f).vol;
    var old' := Resolve(u.nodes, to);
    if old'.Some? { Leads(u, to); }
    LooseIn(u, f);
    if old'.Some? && u.nodes[old'.value].kind == Dir && u.nodes[old'.value].links > 2 {
      ChildLost(u, to, f, old'.value);
    } else if Walkable(to) {
      AttachTree(u, to, f);
    } else {
      UnnamedLost(u, f);
      Unreachable(u, to, f);
    }
  }

  lemma LooseIn(u: Volume, f: nat)
    requires Loose(u, f)
    ensures f in u.nodes && f != ROOT_INO && Unnamed(u.nodes, f)
  {
  }

  /** A name that cannot be walked to leaves the inode without a path. */
  lemma Unreachable(u: Volume, to: PlainPath, f: nat)
    requires Sound(u) && Loose(u, f) && Attach(u, to, f).Ok? && !Walkable(to) && !HasPath(u.nodes, f)
    ensures !Reached(Attach(u, to, f).vol.nodes)
  {
    hide Sound, Attach, Unnamed, Resolve;
    var w := Attach(u, to, f).vol;
    LooseIn(u, f);
    AttachKeys(u, to, f);
    assert f in w.nodes by { TargetOther(u, to, f); }
    if HasPath(w.nodes, f) {
      var q: Path :| Resolve(w.nodes, q) == Some(f);
      AttachResolves(u, to, f, q);
    }
    assert !HasPath(w.nodes, f);
  }

  lemma TargetOther(u: Volume, to: PlainPath, f: nat)
    requires Sound(u) && Loose(u, f) && Attach(u, to, f).Ok?
    ensures GetDe(u.nodes, to).Found? ==> GetDe(u.nodes, to).ino != f
  {
    hide Sound, Attach, Unnamed, Fits;
    if GetDe(u.nodes, to).Found? {
      ReplaceIs(u, to, f);
    }
  }

  lemma AttachTree(u: Volume, to: PlainPath, f: nat)
    requires Sound(u) && Loose(u, f) && ReachedBut(u.nodes, f) && Attach(u, to, f).Ok? && Walkable(to)
    requires var t := Resolve(u.nodes, to);
             t.Some? ==> t.value in u.nodes && (u.nodes[t.value].kind == Dir ==> u.nodes[t.value].links <= 2)
    ensures Reached(Attach(u, to, f).vol.nodes)
  {
    hide Sound, Attach, Unnamed, Resolve, GetDe;
    var w := Attach(u, to, f).vol;
    LooseIn(u, f);
    AttachKeys(u, to, f);
    forall i | i in w.nodes && i != ROOT_INO ensures HasPath(w.nodes, i) {
      if i == f {
        AttachResolves(u, to, f, to);
      } else {
        assert HasPath(u.nodes, i);
        var q: Path :| Resolve(u.nodes, q) == Some(i);
        AttachResolves(u, to, f, q);
        NotBelow(u, to, q);
        NotGone(u, to, i, q);
      }
    }
  }

  /** The path of an inode that is still there is not the target. */
  lemma NotGone(u: Volume, to: Path, i: nat, q: Path)
    requires Resolve(u.nodes, q) == Some(i)
    requires GetDe(u.nodes, to).Found? ==> i != GetDe(u.nodes, to).ino
    ensures q != to
  {
  }

  /** Nothing is found below a name that is missing, a file, or an empty directory. */
  lemma NotBelow(u: Volume, to: Path, q: Path)
    requires Sound(u) && Walkable(to) && Resolve(u.nodes, q).Some?
    requires var t := Resolve(u.nodes, to);
             t.Some? ==> t.value in u.nodes && (u.nodes[t.value].kind == Dir ==> u.nodes[t.value].links <= 2)
    ensures !Under(q, to)
  {
    hide Owned, Named, Marked, Counted;
    if Under(q, to) {
      ReachIs(u, to);
      ReachIs(u, q);
      if Resolve(u.nodes, to).None? {
        BelowMissing(u.nodes, to, q);
      } else {
        BarrenBelow(u.nodes, u.ds, u.nb, to, Resolve(u.nodes, to).value, q);
      }
    }
  }

  lemma ReachIs(u: Volume, q: Path)
    requires q != "/" && Absolute(q)
    ensures Reach(u.nodes, q) == Resolve(u.nodes, q)
  {
  }

  /** Names directory t holds once fr has been taken out of its own directory, dots included. */
  function LinksWithout(v: Volume, t: nat, fr: Path): int
    requires t in v.nodes
  {
    v.nodes[t].links - if Resolve(v.nodes, Dirname(fr)) == Some(t) then 1 else 0
  }

  /** A rename that leaves every inode a path: its source cannot be moved at all, or its target does not lie below
      a regular file, does not begin with two slashes, and is no directory that still has names in it. */
  predicate TidyRename(v: Volume, fr: Path, to: Path) {
    Movable(v, fr) ==>
      && !(Absolute(to) && ThroughFile(v.nodes, to, fr)) && Walkable(to)
      && (to != fr && Resolve(v.nodes, to).Some? && Resolve(v.nodes, to).value in v.nodes
          && v.nodes[Resolve(v.nodes, to).value].kind == Dir ==>
            LinksWithout(v, Resolve(v.nodes, to).value, fr) <= 2)
  }

  lemma DetachLinks(v: Volume, fr: Path, t: nat)
    requires Sound(v) && Detach(v, fr).Ok? && t in v.nodes && v.nodes[t].kind == Dir
    ensures var u := Detach(v, fr).vol; t in u.nodes && u.nodes[t].links == LinksWithout(v, t, fr)
  {
    hide Sound, Detach;
    DetachIs(v, fr);
  }

  lemma RenameTreeIff(v: Volume, fr: Path, to: PlainPath)
    requires Sound(v) && Reached(v.nodes) && !Rename(v, fr, to).Fatal?
    ensures Reached(Rename(v, fr, to).vol.nodes) <==> TidyRename(v, fr, to)
  {
    hide Sound, Detach, Attach, Resolve, Unnamed, Movable, ThroughFile, Reached, LinksWithout;
    DetachIff(v, fr);
    DetachIs(v, fr);
    if Detach(v, fr).Ok? {
      var u, f := Detach(v, fr).vol, Detach(v, fr).val;
      DetachTree(v, fr);
      RenameLosesIff(v, fr, to);
      AttachSound(u, to, f);
      if Rename(v, fr, to).Ok? {
        AttachTreeIff(u, to, f);
        DetachResolves(v, fr, to);
        SameKinds(v, fr);
        if to != fr && Resolve(v.nodes, to).Some? && v.nodes[Resolve(v.nodes, to).value].kind == Dir {
          DetachLinks(v, fr, Resolve(v.nodes, to).value);
        }
      } else {
        LostUnreached(u, f);
        Changed(v, fr);
      }
    }
  }

  lemma SameKinds(v: Volume, fr: Path)
    requires Sound(v) && Detach(v, fr).Ok?
    ensures var u := Detach(v, fr).vol;
            u.nodes.Keys == v.nodes.Keys && forall i :: i in v.nodes ==> u.nodes[i].kind == v.nodes[i].kind
  {
    hide Sound, Detach, Unnamed, Resolve;
    DetachSound(v, fr);
  }

  lemma LostUnreached(u: Volume, f: nat)
    requires Loose(u, f) && !HasPath(u.nodes, f)
    ensures !Reached(u.nodes)
  {
    LooseIn(u, f);
  }

  /** The first half of a rename is never without effect. */
  lemma Changed(v: Volume, fr: Path)
    requires Sound(v) && Detach(v, fr).Ok?
    ensures Detach(v, fr).vol != v
  {
    hide Sound, Detach, Unnamed;
    DetachSound(v, fr);
    DetachResolves(v, fr, fr);
  }

  const A_FILE: PlainPath := "/a"
  const A_DIR: PlainPath := "/d"

  /** For instance, renaming file /a to /d where /d is a directory with a file /d/x in it: the rename succeeds, the
      inode of /d/x stays, and no path leads to it any more. */
  lemma SubtreeLost(v: Volume, a: nat, d: nat, x: nat)
    requires Sound(v) && a in v.nodes && v.nodes[a].kind == Reg && d < BLK_SZ_BITS && x in v.nodes
    requires Resolve(v.nodes, A_FILE) == Some(a) && Resolve(v.nodes, A_DIR) == Some(d)
    requires Resolve(v.nodes, "/d/x") == Some(x)
    ensures var r := Rename(v, A_FILE, A_DIR); r.Ok? && x in r.vol.nodes && !HasPath(r.vol.nodes, x)
  {
    hide Sound, Rename, Resolve;
    var fr, to, q := A_FILE, A_DIR, "/d/x";
    assert fr[1] == 'a' && to[1] == 'd' && |fr| == |to| == 2;
    assert Under(q, to);
    RenameIff(v, fr, to);
    var w := Rename(v, fr, to).vol;
    NotRoots(v);
    if x == a { OnePath(v, q, fr); }
    if x == d { OnePath(v, q, to); }
    RenameKeys(v, fr, to);
    if HasPath(w.nodes, x) {
      var p: Path :| Resolve(w.nodes, p) == Some(x);
      RenameResolves(v, fr, to, p);
      if p != "/" {
        OnePath(v, p, q);
      } else {
        RootOnly(v, q);
      }
    }
  }

  lemma NotRoots(v: Volume)
    requires Sound(v)
    ensures forall p: Path :: p != "/" && Resolve(v.nodes, p).Some? ==> Resolve(v.nodes, p).value != ROOT_INO
  {
    forall p: Path | p != "/" && Resolve(v.nodes, p).Some? ensures Resolve(v.nodes, p).value != ROOT_INO {
      FoundEntry(v.nodes, v.ds, v.nb, p);
    }
  }

  lemma RootOnly(v: Volume, q: Path)
    requires Sound(v) && q != "/" && Resolve(v.nodes, q).Some?
    ensures Resolve(v.nodes, "/") != Resolve(v.nodes, q)
  {
    NotRoots(v);
  }

  lemma RenameKeys(v: Volume, fr: Path, to: PlainPath)
    requires Sound(v) && Rename(v, fr, to).Ok? && to != fr && Resolve(v.nodes, to).Some?
    ensures Rename(v, fr, to).vol.nodes.Keys == v.nodes.Keys - {Resolve(v.nodes, to).value}
  {
    hide Sound, Detach, Attach, Unnamed;
    DetachSound(v, fr);
    DetachResolves(v, fr, to);
    AttachKeys(Detach(v, fr).vol, to, Detach(v, fr).val);
  }

  // ---- whole runs -------------------------------------------------------------------

  /** The request leaves every inode a path. */
  ghost predicate Tidy(v: Volume, op: Op) {
    match op
    case CreateOp(p) => Create(v, p).Ok? ==> Walkable(p)
    case MkdirOp(p) => Mkdir(v, p).Ok? ==> Walkable(p)
    case RenameOp(fr, to) => TidyRename(v, fr, to)
    case WriteOp(fh, data, off) =>
      fh in v.open && v.open[fh] in v.nodes && v.nodes[v.open[fh]].kind == Dir ==>
        var i := v.open[fh];
        Reached(v.nodes[i := v.nodes[i].(slots := SlotsLeft(v.nodes[i], data, off))])
    case _ => true
  }

  lemma WriteTreeIff(v: Volume, fh: nat, data: seq<Byte>, off: nat)
    requires Sound(v) && Reached(v.nodes) && Write(v, fh, data, off).Ok?
    ensures Reached(Write(v, fh, data, off).vol.nodes) <==> Tidy(v, WriteOp(fh, data, off))
  {
    hide Sound, Reached, SlotsLeft, RawLeft, Affordable, GrowTo, WriteReg;
    var i, w := v.open[fh], Write(v, fh, data, off).vol;
    if v.nodes[i].kind == Reg {
      WriteSound(v, fh, data, off);
      SameReached(v.nodes, w.nodes);
    } else {
      var x := v.nodes[i := v.nodes[i].(slots := SlotsLeft(v.nodes[i], data, off))];
      DirShape(v, i);
      if Min(off, v.nodes[i].dirSize) == off + |data| {
        SameBytes(v, i, data, off);
      }
      SameReached(x, w.nodes);
    }
  }

  lemma ApplyTreeIff(v: Volume, op: Op)
    requires Sound(v) && Reached(v.nodes) && Apply(v, op).Some?
    ensures Reached(Apply(v, op).value.nodes) <==> Tidy(v, op)
  {
    hide Sound, Reached, Create, Mkdir, Unlink, Rmdir, Rename, Open, Release, Write, TidyRename;
    match op
    case CreateOp(p) => CreateTreeIff(v, p);
    case MkdirOp(p) => MkdirTreeIff(v, p);
    case UnlinkOp(p) => UnlinkTree(v, p);
    case RmdirOp(p) => RmdirTree(v, p);
    case RenameOp(fr, to) => RenameTreeIff(v, fr, to);
    case OpenOp(p, kind) =>
      OpenSound(v, p, kind);
      if Open(v, p, kind).Ok? { SameReached(v.nodes, Open(v, p, kind).vol.nodes); }
    case ReleaseOp(fh) => ReleaseIs(v, fh); ReleaseSound(v, fh); SameReached(v.nodes, Release(v, fh).vol.nodes);
    case ReadOp(fh, size, off) =>
    case WriteOp(fh, data, off) => WriteIs(v, fh, data, off); WriteTreeIff(v, fh, data, off);
  }

  /** In every state of the run the volume is sound and every inode has its path. */
  ghost predicate TreeThroughout(v: Volume, ops: seq<Op>)
    decreases |ops|
  {
    && Sound(v) && Reached(v.nodes)
    && (ops != [] && Apply(v, ops[0]).Some? ==> TreeThroughout(Apply(v, ops[0]).value, ops[1..]))
  }

  ghost predicate TidyRun(v: Volume, ops: seq<Op>)
    decreases |ops|
  {
    ops != [] && Apply(v, ops[0]).Some? ==> Tidy(v, ops[0]) && TidyRun(Apply(v, ops[0]).value, ops[1..])
  }

  /** In every state of every run each inode but the root is reached by exactly one path, if and only if every
      write is tame and tidy, no name with two slashes in front was entered, no rename was lost, and none
      replaced a directory that still had names in it. */
  lemma {:induction false} RunTreeIff(v: Volume, ops: seq<Op>)
    requires Sound(v) && Reached(v.nodes)
    ensures TreeThroughout(v, ops) <==> TameRun(v, ops) && TidyRun(v, ops)
    decreases |ops|
  {
    hide Sound, Reached, Apply, Tame, Tidy;
    if ops != [] && Apply(v, ops[0]).Some? {
      var w := Apply(v, ops[0]).value;
      ApplySoundIff(v, ops[0]);
      ApplyTreeIff(v, ops[0]);
      if Sound(w) && Reached(w.nodes) {
        RunTreeIff(w, ops[1..]);
      } else {
        assert !TreeThroughout(w, ops[1..]);
      }
    }
  }

  /** From a formatted volume on. */
  lemma FormattedTree(ds: nat, nb: nat, ops: seq<Op>)
    requires 1 <= ds < nb
    ensures var v := NewVolume(ds, nb); TreeThroughout(v, ops) <==> TameRun(v, ops) && TidyRun(v, ops)
  {
    hide Sound, Handled, Reached, TreeThroughout, TameRun, TidyRun;
    NewInv(ds, nb);
    NewReached(ds, nb);
    RunTreeIff(NewVolume(ds, nb), ops);
  }
}
