/** Deleting and renaming files. */
module RemoveOps {
  import opened Layout
  import opened Paths
  import opened Directory
  import opened Volumes
  import opened Namespace
  import opened Invariants
  import opened CreateOps
  import opened Removal

  /** What is known of an entry the walk has found. */
  ghost predicate Entry(nodes: Nodes, p: Path, d: nat, j: nat, i: nat) {
    && Walkable(p) && Names(nodes, d, j) && nodes[d].slots[j] == Dentry(p, i)
    && i in nodes && i >= FIRST_UNRESERVED_INO && d != i
    && Reach(nodes, p) == Some(i) && ReachUp(nodes, p) == Some(d) && Resolve(nodes, Dirname(p)) == Some(d)
  }

  lemma FoundEntry(nodes: Nodes, ds: nat, nb: nat, p: Path)
    requires NodesOk(nodes, ds, nb) && Named(nodes, nodes.Keys)
    requires GetDe(nodes, p).Found? && p != "/"
    ensures var l := GetDe(nodes, p); Entry(nodes, p, l.dir, l.slot, l.ino)
  {
    var l := GetDe(nodes, p);
    if !Walkable(p) {
      NoRootSlash(nodes, ds, nb);
      DoubleSlash(nodes, p);
      assert false;
    }
    UpIsDirname(nodes, p);
    assert Names(nodes, l.dir, l.slot);
    var k := LastSlash(p);
    if k > 0 {
      var up := Walk(nodes, p[..k]);
      assert Names(nodes, up.dir, up.slot);
    }
  }

  /** Only the entry itself leads to the inode it names. */
  lemma OnlyEntry(nodes: Nodes, p: Path, d: nat, j: nat, i: nat, e: nat, x: Path)
    requires Named(nodes, nodes.Keys) && Names(nodes, d, j) && nodes[d].slots[j] == Dentry(p, i)
    requires Absolute(x) && Step(nodes, e, x) == Some(i)
    ensures e == d && x == p
  {
    var l := Search(nodes, e, x);
    assert Names(nodes, l.dir, l.slot);
  }

  /** Overwriting the entry changes what its name resolves to, and nothing that does not go
      through that name. */
  lemma RewriteResolve(v: Volume, p: Path, d: nat, j: nat, i: nat, de: Dentry, delta: int, q: Path)
    requires NodesOk(v.nodes, v.ds, v.nb) && Entry(v.nodes, p, d, j, i) && Fits(v, d, j, de, delta)
    requires de != EMPTY ==> v.nodes[de.ino].kind == Reg
    ensures var r := if de == EMPTY then None else Some(de.ino);
            Resolve(Rewrite(v, d, j, de, delta).nodes, q) ==
            if q == p then r else if Under(q, p) then None else Resolve(v.nodes, q)
  {
    var a, b := v.nodes, Rewrite(v, d, j, de, delta).nodes;
    var r := if de == EMPTY then None else Some(de.ino);
    RewriteSteps(a, d, j, de, p, b);
    RewrittenStep(a[d], v.ds, j, de, p);
    assert Step(b, d, p) == r;
    ResolveChanged(a, b, p, r, q);
  }

  lemma RewriteSteps(a: Nodes, d: nat, j: nat, de: Dentry, p: Path, b: Nodes)
    requires Names(a, d, j) && a[d].slots[j].name == p && (de == EMPTY || de.name == p)
    requires d in b && b == a[d := b[d]] && b[d].kind == Dir && b[d].slots == a[d].slots[j := de]
    ensures forall e, x | Absolute(x) && x != p :: Step(b, e, x) == Step(a, e, x)
  {
    forall e, x | Absolute(x) && x != p ensures Step(b, e, x) == Step(a, e, x) {
      if e == d {
        FindUpdate(a[d].slots, j, de, x);
      }
    }
  }

  lemma RewrittenStep(n: Node, ds: nat, j: nat, de: Dentry, p: Path)
    requires n.kind == Dir && NodeOk(n, ds) && j < |n.slots| && n.slots[j].name == p && Walkable(p)
    requires de == EMPTY || (de.name == p && de.ino >= ROOT_INO)
    ensures var s := n.slots[j := de]; Find(s, p) == if de == EMPTY then |s| else j
  {
    var s := n.slots[j := de];
    forall l | 0 <= l < |s| && l != j ensures !Hit(s[l], p) {
    }
    assert Hit(s[j], p) <==> de != EMPTY;
  }

  /** The parent directory of an entry is still found after the entry's inode is gone. */
  lemma ParentSurvives(nodes: Nodes, ds: nat, nb: nat, p: Path, d: nat, j: nat, i: nat)
    requires NodesOk(nodes, ds, nb) && Named(nodes, nodes.Keys) && Entry(nodes, p, d, j, i)
    ensures Resolve(nodes - {i}, Dirname(p)) == Some(d)
  {
    UpIsDirname(nodes, p);
    var k := LastSlash(p);
    if k > 0 {
      forall e, x | Absolute(x) && x != p ensures Step(nodes, e, x) != Some(i) {
        if Step(nodes, e, x) == Some(i) {
          OnlyEntry(nodes, p, d, j, i, e, x);
        }
      }
      ReachAround(nodes, i, p, p[..k]);
    }
  }

  /** Overwriting an entry and then freeing the inode it named. */
  lemma RewriteFree(v: Volume, p: Path, d: nat, j: nat, i: nat, de: Dentry, delta: int)
    requires Sound(v) && Entry(v.nodes, p, d, j, i) && Fits(v, d, j, de, delta) && de.ino != i
    ensures var u := Rewrite(v, d, j, de, delta);
            && i in u.nodes && Sound(u) && Unnamed(u.nodes, i)
            && (DeallocIno(u, i).Ok? <==> i < BLK_SZ_BITS)
            && (DeallocIno(u, i).Ok? ==> Sound(DeallocIno(u, i).vol))
  {
    hide Sound, Fits, DeallocIno;
    RewriteSound(v, d, j, de, delta);
    DeallocSound(Rewrite(v, d, j, de, delta), i);
  }

  /** Deleting is: blank the entry, then free the inode. */
  lemma RemoveEntryIs(v: Volume, p: Path, l: Look)
    requires Sound(v) && p != "/" && l == GetDe(v.nodes, p) && l.Found?
    ensures Entry(v.nodes, p, l.dir, l.slot, l.ino)
    ensures var u := Rewrite(v, l.dir, l.slot, EMPTY, -1);
            && (RemoveEntry(v, p, l).Ok? <==> l.ino < BLK_SZ_BITS)
            && !RemoveEntry(v, p, l).Refused?
            && Sound(u) && l.ino in u.nodes && Unnamed(u.nodes, l.ino)
            && (l.ino < BLK_SZ_BITS ==> DeallocIno(u, l.ino).Ok? && RemoveEntry(v, p, l) == DeallocIno(u, l.ino)
                                        && Sound(DeallocIno(u, l.ino).vol))
  {
    FoundEntry(v.nodes, v.ds, v.nb, p);
    ParentSurvives(v.nodes, v.ds, v.nb, p, l.dir, l.slot, l.ino);
    RewriteFree(v, p, l.dir, l.slot, l.ino, EMPTY, -1);
    if l.ino < BLK_SZ_BITS {
      RemoveEntryCommutes(v, p, l);
    }
  }

  lemma RemoveEntryCommutes(v: Volume, p: Path, l: Look)
    requires l.Found? && l.ino in v.nodes && l.dir in v.nodes && l.slot < |v.nodes[l.dir].slots| && l.dir != l.ino
    requires l.ino != ROOT_INO && l.ino < BLK_SZ_BITS && v.nodes[l.dir].kind == Dir
    requires Resolve(v.nodes - {l.ino}, Dirname(p)) == Some(l.dir)
    requires DeallocIno(Rewrite(v, l.dir, l.slot, EMPTY, -1), l.ino).Ok?
    ensures RemoveEntry(v, p, l) == DeallocIno(Rewrite(v, l.dir, l.slot, EMPTY, -1), l.ino)
  {
    var w, w' := RemoveEntry(v, p, l).vol, DeallocIno(Rewrite(v, l.dir, l.slot, EMPTY, -1), l.ino).vol;
    assert w.nodes == w'.nodes;
  }

  /** Freeing an inode keeps the handle table exact if and only if nobody has it open. */
  lemma DeallocHandled(v: Volume, i: nat)
    requires Handled(v.nodes, v.open, v.nextFd) && i in v.nodes && i != ROOT_INO
    requires DeallocIno(v, i).Ok?
    ensures Handled(DeallocIno(v, i).vol.nodes, v.open, v.nextFd) <==> v.nodes[i].refs == 0
  {
    var w := DeallocIno(v, i).vol;
    if v.nodes[i].refs == 0 {
      forall fh | fh in v.open ensures v.open[fh] in w.nodes {
        assert v.open[fh] == i ==> fh in HandlesOf(v.open, i);
      }
    } else if HandlesOf(v.open, i) != {} {
      var fh :| fh in HandlesOf(v.open, i);
      assert v.open[fh] !in w.nodes;
    }
  }

  /** The files below a file or an empty directory: none. */
  lemma BarrenBelow(nodes: Nodes, ds: nat, nb: nat, p: Path, i: nat, q: Path)
    requires NodesOk(nodes, ds, nb) && Absolute(p) && Reach(nodes, p) == Some(i) && i in nodes
    requires nodes[i].kind == Dir ==> nodes[i].links <= 2
    requires Under(q, p)
    ensures Resolve(nodes, q).None?
  {
    forall x | Absolute(x) ensures Step(nodes, i, x).None? {
      if nodes[i].kind == Dir {
        BarrenDir(nodes[i], ds, x);
      }
    }
    BelowLeaf(nodes, p, q);
  }

  lemma BarrenDir(n: Node, ds: nat, x: Path)
    requires n.kind == Dir && DirOk(n, ds) && n.links <= 2 && Absolute(x)
    ensures Find(n.slots, x) == |n.slots|
  {
    var j := Find(n.slots, x);
    if j < |n.slots| {
      var s := {0, 1, j};
      assert s <= LiveSet(n.slots);
      SubsetCard(s, LiveSet(n.slots));
      assert false;
    }
  }

  lemma RemovedSound(v: Volume, p: Path, l: Look)
    requires Sound(v) && p != "/" && l == GetDe(v.nodes, p) && l.Found?
    ensures l.ino in v.nodes && l.ino != ROOT_INO && (v.nodes[l.ino].kind == Reg ==> v.nodes[l.ino].links == 0)
    ensures RemoveEntry(v, p, l).Ok? <==> l.ino < BLK_SZ_BITS
    ensures !RemoveEntry(v, p, l).Refused?
    ensures RemoveEntry(v, p, l).Ok? ==> Sound(RemoveEntry(v, p, l).vol)
  {
    RemoveEntryIs(v, p, l);
  }

  lemma FoundLive(v: Volume, p: Path)
    requires Sound(v)
    ensures !GetDe(v.nodes, p).Broken?
    ensures GetDe(v.nodes, p).Found? ==> GetDe(v.nodes, p).ino in v.nodes
  {
    if Absolute(p) && p != "/" {
      WalkLive(v.nodes, v.ds, v.nb, p);
    }
  }

  lemma {:induction false} WalkLive(nodes: Nodes, ds: nat, nb: nat, p: Path)
    requires NodesOk(nodes, ds, nb) && Named(nodes, nodes.Keys) && Absolute(p)
    ensures !Walk(nodes, p).Broken?
    ensures Walk(nodes, p).Found? ==> Walk(nodes, p).ino in nodes
    decreases |p|
  {
    var k := LastSlash(p);
    if k > 0 {
      WalkLive(nodes, ds, nb, p[..k]);
    }
    var l := Walk(nodes, p);
    assert l.Found? ==> Names(nodes, l.dir, l.slot);
  }

  lemma RootStays(v: Volume)
    requires Sound(v)
    ensures ROOT_INO in v.nodes && v.nodes[ROOT_INO].kind == Dir
    ensures RemoveEntry(v, "/", GetDe(v.nodes, "/")).Fatal?
  {
  }

  /** Unlink succeeds exactly on a closed regular file in the first bitmap block. It is refused, changing
      nothing, exactly when the name is too long or leads to nothing, a directory or an open file. */
  lemma UnlinkSound(v: Volume, p: Path)
    requires Sound(v)
    ensures Unlink(v, p).Ok? <==>
            && |p| < MAX_FILE_NAME_LEN && Resolve(v.nodes, p).Some?
            && var i := Resolve(v.nodes, p).value;
            i in v.nodes && v.nodes[i].kind == Reg && v.nodes[i].refs <= 0 && i < BLK_SZ_BITS
    ensures Unlink(v, p).Refused? <==>
            || |p| >= MAX_FILE_NAME_LEN || Resolve(v.nodes, p).None?
            || var i := Resolve(v.nodes, p).value;
               i in v.nodes && (v.nodes[i].kind == Dir || v.nodes[i].refs > 0)
    ensures Unlink(v, p).Ok? ==> Sound(Unlink(v, p).vol)
    ensures Unlink(v, p).Refused? ==> Unlink(v, p).vol == v
  {
    hide Sound, RemoveEntry;
    var l := GetDe(v.nodes, p);
    RootStays(v);
    FoundLive(v, p);
    if l.Found? && p != "/" {
      RemovedSound(v, p, l);
    }
  }

  /** Unlink takes exactly its path out of the namespace. */
  lemma UnlinkResolves(v: Volume, p: Path, q: Path)
    requires Sound(v) && Unlink(v, p).Ok?
    ensures Resolve(Unlink(v, p).vol.nodes, q) == if q == p then None else Resolve(v.nodes, q)
  {
    var l := GetDe(v.nodes, p);
    RemovedResolve(v, p, l, q);
  }

  lemma RemovedResolve(v: Volume, p: Path, l: Look, q: Path)
    requires Sound(v) && p != "/" && l == GetDe(v.nodes, p) && l.Found? && RemoveEntry(v, p, l).Ok?
    requires v.nodes[l.ino].kind == Dir ==> v.nodes[l.ino].links <= 2
    ensures Resolve(RemoveEntry(v, p, l).vol.nodes, q) == if q == p then None else Resolve(v.nodes, q)
  {
    RemoveEntryIs(v, p, l);
    var u := Rewrite(v, l.dir, l.slot, EMPTY, -1);
    RewriteResolve(v, p, l.dir, l.slot, l.ino, EMPTY, -1, q);
    FreedResolve(u, l.ino, q);
    if Under(q, p) {
      BarrenBelow(v.nodes, v.ds, v.nb, p, l.ino, q);
    }
  }

  lemma FreedResolve(u: Volume, i: nat, q: Path)
    requires i in u.nodes && Unnamed(u.nodes, i) && DeallocIno(u, i).Ok?
    ensures Resolve(DeallocIno(u, i).vol.nodes, q) == Resolve(u.nodes, q)
  {
    forall d, x | Absolute(x) ensures Step(u.nodes, d, x) != Some(i) {
      var l := Search(u.nodes, d, x);
      assert l.Found? ==> Names(u.nodes, l.dir, l.slot);
    }
    ResolveAvoids(u.nodes, i, q);
  }

  /** Rmdir, likewise: refused exactly when the name is too long or leads to nothing, a regular file, a directory
      with names in it or an open one; the root's own handles do not matter. */
  lemma RmdirSound(v: Volume, p: Path)
    requires Sound(v)
    ensures Rmdir(v, p).Ok? <==>
            && |p| < MAX_FILE_NAME_LEN && p != "/" && Resolve(v.nodes, p).Some?
            && var i := Resolve(v.nodes, p).value;
            i in v.nodes && v.nodes[i].kind == Dir && v.nodes[i].links <= 2 && v.nodes[i].refs <= 0
            && i < BLK_SZ_BITS
    ensures Rmdir(v, p).Refused? <==>
            || |p| >= MAX_FILE_NAME_LEN || Resolve(v.nodes, p).None?
            || var i := Resolve(v.nodes, p).value;
               && i in v.nodes
               && (v.nodes[i].kind == Reg || v.nodes[i].links > 2 || (p != "/" && v.nodes[i].refs > 0))
    ensures Rmdir(v, p).Ok? ==> Sound(Rmdir(v, p).vol)
    ensures Rmdir(v, p).Refused? ==> Rmdir(v, p).vol == v
  {
    hide Sound, RemoveEntry;
    var l := GetDe(v.nodes, p);
    RootStays(v);
    FoundLive(v, p);
    if l.Found? && p != "/" {
      RemovedSound(v, p, l);
    }
  }

  /** Rmdir takes exactly its path out of the namespace: an empty directory hides nothing. */
  lemma RmdirResolves(v: Volume, p: Path, q: Path)
    requires Sound(v) && Rmdir(v, p).Ok?
    ensures Resolve(Rmdir(v, p).vol.nodes, q) == if q == p then None else Resolve(v.nodes, q)
  {
    hide Sound, RemoveEntry;
    RmdirSound(v, p);
    RemovedResolve(v, p, GetDe(v.nodes, p), q);
  }

  lemma RewriteHandled(v: Volume, d: nat, j: nat, de: Dentry, delta: int)
    requires d in v.nodes && j < |v.nodes[d].slots| && Handled(v.nodes, v.open, v.nextFd)
    ensures var u := Rewrite(v, d, j, de, delta);
            u.open == v.open && u.nextFd == v.nextFd && Handled(u.nodes, v.open, v.nextFd)
  {
  }

  lemma DeallocKeepsTable(v: Volume, i: nat)
    requires i in v.nodes && DeallocIno(v, i).Ok?
    ensures DeallocIno(v, i).vol.open == v.open && DeallocIno(v, i).vol.nextFd == v.nextFd
  {
  }

  lemma RemovedHandled(v: Volume, p: Path, l: Look)
    requires Inv(v) && p != "/" && l == GetDe(v.nodes, p) && l.Found? && RemoveEntry(v, p, l).Ok?
    requires v.nodes[l.ino].refs <= 0
    ensures var w := RemoveEntry(v, p, l).vol;
            w.open == v.open && w.nextFd == v.nextFd && Handled(w.nodes, w.open, w.nextFd)
  {
    hide Sound, Handled, RemoveEntry, DeallocIno, Unnamed;
    RemoveEntryIs(v, p, l);
    RewriteHandled(v, l.dir, l.slot, EMPTY, -1);
    DeallocHandled(Rewrite(v, l.dir, l.slot, EMPTY, -1), l.ino);
    DeallocKeepsTable(Rewrite(v, l.dir, l.slot, EMPTY, -1), l.ino);
  }

  lemma UnlinkHandled(v: Volume, p: Path)
    requires Inv(v) && Unlink(v, p).Ok?
    ensures var w := Unlink(v, p).vol; w.open == v.open && Handled(w.nodes, w.open, w.nextFd)
  {
    RemovedHandled(v, p, GetDe(v.nodes, p));
  }

  lemma RmdirHandled(v: Volume, p: Path)
    requires Inv(v) && Rmdir(v, p).Ok?
    ensures var w := Rmdir(v, p).vol; w.open == v.open && Handled(w.nodes, w.open, w.nextFd)
  {
    hide Sound, Handled, RemoveEntry;
    RmdirSound(v, p);
    RemovedHandled(v, p, GetDe(v.nodes, p));
  }
}
