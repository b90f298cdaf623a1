/** Renaming: the source entry is taken out first, then the target name is set. */
module RenameOps {
  import opened Layout
  import opened Paths
  import opened Directory
  import opened Volumes
  import opened Namespace
  import opened Invariants
  import opened Growth
  import opened CreateOps
  import opened Removal
  import opened RemoveOps

  // ---- first half -------------------------------------------------------------------

  /** Detach blanks the entry of a regular file, or changes nothing. */
  lemma DetachIs(v: Volume, fr: Path)
    requires Sound(v)
    ensures Detach(v, fr).Refused? ==> Detach(v, fr).vol == v
    ensures Detach(v, fr).Ok? ==>
              var l := GetDe(v.nodes, fr);
              && fr != "/" && l.Found? && Entry(v.nodes, fr, l.dir, l.slot, l.ino)
              && l.ino == Detach(v, fr).val && v.nodes[l.ino].kind == Reg
              && Detach(v, fr).vol == Rewrite(v, l.dir, l.slot, EMPTY, -1)
  {
    hide Sound;
    RootStays(v);
    if Detach(v, fr).Ok? {
      DetachFound(v, fr);
    }
  }

  lemma DetachFound(v: Volume, fr: Path)
    requires Sound(v) && GetDe(v.nodes, fr).Found? && fr != "/"
    ensures var l := GetDe(v.nodes, fr);
            && Entry(v.nodes, fr, l.dir, l.slot, l.ino)
            && DropLink(SetSlot(v, l.dir, l.slot, EMPTY), l.dir) == Rewrite(v, l.dir, l.slot, EMPTY, -1)
  {
    hide DropLink, SetSlot, Rewrite;
    FoundEntry(v.nodes, v.ds, v.nb, fr);
    var l := GetDe(v.nodes, fr);
    DropIsRewrite(v, l.dir, l.slot);
  }

  /** fr names a regular file that rename can take. */
  predicate Movable(v: Volume, fr: Path) {
    && |fr| < MAX_FILE_NAME_LEN && Resolve(v.nodes, fr).Some? && Resolve(v.nodes, fr).value in v.nodes
    && v.nodes[Resolve(v.nodes, fr).value].kind == Reg
  }

  lemma DetachIff(v: Volume, fr: Path)
    requires Sound(v)
    ensures Detach(v, fr).Ok? <==> Movable(v, fr)
  {
    hide Sound, Entry;
    FoundLive(v, fr);
    NotTheRootFile(v, fr);
    if Movable(v, fr) {
      DetachFound(v, fr);
      EntryParent(v, fr);
    } else if Detach(v, fr).Ok? {
      DetachIs(v, fr);
    }
  }

  lemma NotTheRootFile(v: Volume, fr: Path)
    requires Sound(v)
    ensures Movable(v, fr) ==> fr != "/"
  {
  }

  lemma EntryParent(v: Volume, p: Path)
    requires Sound(v) && GetDe(v.nodes, p).Found? && p != "/"
    ensures ParentDir(v, p).Ok? && ParentDir(v, p).val == GetDe(v.nodes, p).dir
  {
    FoundEntry(v.nodes, v.ds, v.nb, p);
    FoundLive(v, Dirname(p));
  }

  lemma DropIsRewrite(v: Volume, d: nat, j: nat)
    requires d in v.nodes && j < |v.nodes[d].slots|
    ensures d in SetSlot(v, d, j, EMPTY).nodes
    ensures DropLink(SetSlot(v, d, j, EMPTY), d) == Rewrite(v, d, j, EMPTY, -1)
  {
    assert DropLink(SetSlot(v, d, j, EMPTY), d).nodes == Rewrite(v, d, j, EMPTY, -1).nodes;
  }

  lemma DetachSound(v: Volume, fr: Path)
    requires Sound(v) && Detach(v, fr).Ok?
    ensures var u, f := Detach(v, fr).vol, Detach(v, fr).val;
            && Sound(u) && f in u.nodes && u.nodes[f].kind == Reg && f >= FIRST_UNRESERVED_INO && Unnamed(u.nodes, f)
            && u == v.(nodes := u.nodes) && u.nodes.Keys == v.nodes.Keys
            && (forall i :: i in v.nodes ==> u.nodes[i].refs == v.nodes[i].refs && u.nodes[i].kind == v.nodes[i].kind
                                             && (v.nodes[i].kind == Reg ==> u.nodes[i].bytes == v.nodes[i].bytes))
            && Resolve(v.nodes, fr) == Some(f)
  {
    hide Sound, Unnamed, Walk, Detach;
    DetachIs(v, fr);
    var l := GetDe(v.nodes, fr);
    RewriteSound(v, l.dir, l.slot, EMPTY, -1);
  }

  lemma DetachResolves(v: Volume, fr: Path, q: Path)
    requires Sound(v) && Detach(v, fr).Ok?
    ensures Resolve(Detach(v, fr).vol.nodes, q) == if q == fr then None else Resolve(v.nodes, q)
  {
    DetachIs(v, fr);
    var l := GetDe(v.nodes, fr);
    RewriteResolve(v, fr, l.dir, l.slot, l.ino, EMPTY, -1, q);
    if Under(q, fr) {
      BarrenBelow(v.nodes, v.ds, v.nb, fr, l.ino, q);
    }
  }

  // ---- second half ------------------------------------------------------------------

  /** A nameless regular file, ready to be put under a name. */
  ghost predicate Loose(u: Volume, f: nat) {
    f in u.nodes && u.nodes[f].kind == Reg && f >= FIRST_UNRESERVED_INO && Unnamed(u.nodes, f)
  }

  /** Replacing an existing target is: point its entry at f, then free the old inode. */
  lemma ReplaceIs(u: Volume, to: PlainPath, f: nat)
    requires Sound(u) && Loose(u, f) && GetDe(u.nodes, to).Found?
    ensures to == "/" ==> Attach(u, to, f).Fatal?
    ensures to != "/" ==>
              var t := GetDe(u.nodes, to);
              && Entry(u.nodes, to, t.dir, t.slot, t.ino) && t.ino != f
              && Fits(u, t.dir, t.slot, Dentry(to, f), 0)
              && (Attach(u, to, f).Ok? <==> t.ino < BLK_SZ_BITS) && !Attach(u, to, f).Refused?
              && var x := Rewrite(u, t.dir, t.slot, Dentry(to, f), 0);
              t.ino in x.nodes && Unnamed(x.nodes, t.ino)
              && (Attach(u, to, f).Ok? ==> DeallocIno(x, t.ino) == Attach(u, to, f))
    ensures Attach(u, to, f).Ok? ==> Sound(Attach(u, to, f).vol)
  {
    hide Sound, Unnamed, Rewrite;
    RootStays(u);
    if to != "/" {
      var t := GetDe(u.nodes, to);
      FoundTarget(u, to, f);
      RewriteFree(u, to, t.dir, t.slot, t.ino, Dentry(to, f), 0);
      if t.ino < BLK_SZ_BITS {
        ReplaceCommutes(u, to, f, t);
      }
    }
  }

  lemma FoundTarget(u: Volume, to: PlainPath, f: nat)
    requires Sound(u) && Loose(u, f) && GetDe(u.nodes, to).Found? && to != "/"
    ensures var t := GetDe(u.nodes, to);
            Entry(u.nodes, to, t.dir, t.slot, t.ino) && t.ino != f && Fits(u, t.dir, t.slot, Dentry(to, f), 0)
  {
    FoundEntry(u.nodes, u.ds, u.nb, to);
  }

  lemma ReplaceCommutes(u: Volume, to: PlainPath, f: nat, t: Look)
    requires t == GetDe(u.nodes, to) && t.Found? && t.ino in u.nodes && t.dir in u.nodes && t.dir != t.ino
    requires t.slot < |u.nodes[t.dir].slots| && t.ino != ROOT_INO
    requires DeallocIno(Rewrite(u, t.dir, t.slot, Dentry(to, f), 0), t.ino).Ok?
    ensures Attach(u, to, f) == DeallocIno(Rewrite(u, t.dir, t.slot, Dentry(to, f), 0), t.ino)
  {
    var w := DeallocIno(Rewrite(u, t.dir, t.slot, Dentry(to, f), 0), t.ino).vol;
    assert Attach(u, to, f).vol.nodes == w.nodes;
  }

  /** A replaced target: its path now leads to f, and whatever was below it is out of reach. */
  lemma ReplaceResolves(u: Volume, to: PlainPath, f: nat, q: Path)
    requires Sound(u) && Loose(u, f) && GetDe(u.nodes, to).Found? && Attach(u, to, f).Ok?
    ensures to != "/" && Walkable(to)
    ensures Resolve(Attach(u, to, f).vol.nodes, q) ==
            if q == to then Some(f) else if Under(q, to) then None else Resolve(u.nodes, q)
  {
    hide Attach;
    ReplaceIs(u, to, f);
    var t := GetDe(u.nodes, to);
    RewriteResolve(u, to, t.dir, t.slot, t.ino, Dentry(to, f), 0, q);
    FreedResolve(Rewrite(u, t.dir, t.slot, Dentry(to, f), 0), t.ino, q);
  }

  lemma MissingParent(v: Volume, p: Path)
    requires Sound(v) && GetDe(v.nodes, p).Missing?
    ensures !ParentDir(v, p).Refused?
    ensures ParentDir(v, p).Ok? ==>
              var d := ParentDir(v, p).val;
              && Absolute(p) && p != "/" && d in v.nodes && v.nodes[d].kind == Dir
              && Resolve(v.nodes, Dirname(p)) == Some(d)
              && (Walkable(p) ==> Find(v.nodes[d].slots, p) == |v.nodes[d].slots|)
  {
    if Walkable(p) {
      UpIsDirname(v.nodes, p);
    } else if Absolute(p) {
      var k := LastSlash(p);
      if k > 1 {
        NoRootSlash(v.nodes, v.ds, v.nb);
        DoubleSlash(v.nodes, p[..k]);
        SlashSlashMissing(v.nodes, p[..k]);
      } else {
        assert p[..1] == "/";
      }
    }
  }

  lemma {:induction false} SlashSlashMissing(nodes: Nodes, p: Path)
    requires |p| >= 2 && p[0] == '/' && p[1] == '/'
    requires ROOT_INO in nodes && nodes[ROOT_INO].kind == Dir && Step(nodes, ROOT_INO, "/").None?
    ensures Walk(nodes, p).Missing?
    decreases |p|
  {
    var k := LastSlash(p);
    if k == 1 {
      assert p[..1] == "/";
    } else {
      SlashSlashMissing(nodes, p[..k]);
    }
  }

  lemma EnteredSound(u: Volume, w: Volume, d: nat, to: Path, f: nat)
    requires Sound(u) && Loose(u, f) && Entered(u, w, d, to, f)
    ensures Sound(w)
  {
    NodesOkUpdate(u.nodes, u.ds, u.nb, d, w.nodes[d]);
    NamedInsert(u.nodes, u.nodes.Keys, d, w.nodes[d], Dentry(to, f));
    OwnedUpdate(u.nodes, u.ds, u.next, w.next, d, w.nodes[d]);
    assert w.nodes.Keys == u.nodes.Keys;
  }

  lemma EnteredResolve(u: Volume, w: Volume, d: nat, to: Path, f: nat, q: Path)
    requires NodesOk(u.nodes, u.ds, u.nb) && Loose(u, f) && Entered(u, w, d, to, f)
    requires Absolute(to) && to != "/" && GetDe(u.nodes, to).Missing? && Resolve(u.nodes, Dirname(to)) == Some(d)
    requires Walkable(to) ==> Find(u.nodes[d].slots, to) == |u.nodes[d].slots|
    ensures Resolve(w.nodes, q) == if q == to && Walkable(to) then Some(f) else Resolve(u.nodes, q)
  {
    var a, b := u.nodes, w.nodes;
    var r := if Walkable(to) then Some(f) else None;
    EnteredSteps(u, w, d, to, f);
    if Walkable(to) {
      UpIsDirname(a, to);
      FindInserted(a[d].slots, Dentry(to, f));
      assert Step(b, d, to) == Some(f);
    } else {
      NoRootSlash(a, u.ds, u.nb);
      DoubleSlash(a, to);
    }
    assert OneEntryChanged(a, b, to, r);
    ResolveChanged(a, b, to, r, q);
    if Under(q, to) {
      BelowMissing(a, to, q);
    }
  }

  lemma EnteredSteps(u: Volume, w: Volume, d: nat, to: Path, f: nat)
    requires Loose(u, f) && Entered(u, w, d, to, f)
    ensures forall e, x | Absolute(x) && x != to :: Step(w.nodes, e, x) == Step(u.nodes, e, x)
    ensures forall x | Absolute(x) && x != to :: Step(w.nodes, f, x).None?
  {
    forall e, x | Absolute(x) && x != to ensures Step(w.nodes, e, x) == Step(u.nodes, e, x) {
      if e == d {
        FindInsert(u.nodes[d].slots, Dentry(to, f), x);
      }
    }
  }

  /** A target that did not exist. */
  lemma AttachNewIs(u: Volume, to: PlainPath, f: nat)
    requires Sound(u) && Loose(u, f) && GetDe(u.nodes, to).Missing?
    ensures !Attach(u, to, f).Refused?
    ensures Attach(u, to, f).Ok? ==>
              var w, d := Attach(u, to, f).vol, ParentDir(u, to).val;
              && ParentDir(u, to).Ok? && Entered(u, w, d, to, f)
              && Absolute(to) && to != "/" && Resolve(u.nodes, Dirname(to)) == Some(d)
              && (Walkable(to) ==> Find(u.nodes[d].slots, to) == |u.nodes[d].slots|)
  {
    hide AddDentry, ParentDir, GetDe;
    MissingParent(u, to);
    if Attach(u, to, f).Ok? {
      AddDentryEnters(u, ParentDir(u, to).val, to, f);
    }
  }

  // ---- the whole operation ----------------------------------------------------------

  /** Rename never breaks the volume, whether it succeeds or is refused. */
  lemma RenameSound(v: Volume, fr: Path, to: PlainPath)
    requires Sound(v)
    ensures !Rename(v, fr, to).Fatal? ==> Sound(Rename(v, fr, to).vol)
  {
    hide Sound, Detach, Attach, Entry, Fits, Unnamed;
    DetachIs(v, fr);
    if Detach(v, fr).Ok? {
      DetachSound(v, fr);
      var u, f := Detach(v, fr).vol, Detach(v, fr).val;
      AttachSound(u, to, f);
    }
  }

  lemma AttachSound(u: Volume, to: PlainPath, f: nat)
    requires Sound(u) && Loose(u, f)
    ensures Attach(u, to, f).Ok? ==> Sound(Attach(u, to, f).vol)
    ensures Attach(u, to, f).Refused? <==> GetDe(u.nodes, to).NotDir?
    ensures Attach(u, to, f).Refused? ==> Attach(u, to, f).vol == u
  {
    hide Sound, Loose, Entered, Entry, Fits, Unnamed, ParentDir, AddDentry, DeallocIno, GetDe;
    var t := GetDe(u.nodes, to);
    if t.Found? {
      ReplaceIs(u, to, f);
    } else if t.Missing? {
      AttachNewIs(u, to, f);
      if Attach(u, to, f).Ok? {
        EnteredSound(u, Attach(u, to, f).vol, ParentDir(u, to).val, to, f);
      }
    }
  }

  lemma AttachResolves(u: Volume, to: PlainPath, f: nat, q: Path)
    requires Sound(u) && Loose(u, f) && Attach(u, to, f).Ok?
    ensures Resolve(Attach(u, to, f).vol.nodes, q) ==
            if q == to && Walkable(to) then Some(f)
            else if Under(q, to) then None
            else Resolve(u.nodes, q)
  {
    hide Loose, Entered, Entry, Fits, Unnamed, ParentDir, AddDentry, DeallocIno;
    var t := GetDe(u.nodes, to);
    if t.Found? {
      ReplaceResolves(u, to, f, q);
    } else {
      AttachNewIs(u, to, f);
      EnteredResolve(u, Attach(u, to, f).vol, ParentDir(u, to).val, to, f, q);
      if Under(q, to) {
        BelowMissing(u.nodes, to, q);
      }
    }
  }

  /** A successful rename moves one path: the source name is gone, the target name leads to the
      source's inode (unless it begins with two slashes), paths below a replaced target are gone,
      and every other path is as before. A path renamed onto itself changes nothing. */
  lemma RenameResolves(v: Volume, fr: Path, to: PlainPath, q: Path)
    requires Sound(v) && Rename(v, fr, to).Ok?
    ensures Resolve(v.nodes, fr).Some?
    ensures Resolve(Rename(v, fr, to).vol.nodes, q) ==
            if q == to && Walkable(to) then Resolve(v.nodes, fr)
            else if q == fr || Under(q, to) then None
            else Resolve(v.nodes, q)
    ensures fr == to ==> Resolve(Rename(v, fr, to).vol.nodes, q) == Resolve(v.nodes, q)
  {
    hide Sound, Detach, Attach, Unnamed;
    DetachSound(v, fr);
    DetachResolves(v, fr, q);
    var u, f := Detach(v, fr).vol, Detach(v, fr).val;
    AttachResolves(u, to, f, q);
    if fr == to {
      DetachIs(v, fr);
      if Under(q, to) {
        SelfBelow(v, fr, q);
      }
    }
  }

  lemma SelfBelow(v: Volume, fr: Path, q: Path)
    requires Sound(v) && Detach(v, fr).Ok? && Under(q, fr)
    ensures Resolve(v.nodes, q).None?
  {
    DetachIs(v, fr);
    BarrenBelow(v.nodes, v.ds, v.nb, fr, GetDe(v.nodes, fr).ino, q);
  }

  // ---- when it goes wrong -----------------------------------------------------------

  /** Some name on the way to p, other than `but`, is a regular file. */
  predicate ThroughFile(nodes: Nodes, p: Path, but: Path)
    requires Absolute(p)
    decreases |p|
  {
    var k := LastSlash(p);
    k > 0 && (IsFile(nodes, p[..k], but) || ThroughFile(nodes, p[..k], but))
  }

  predicate IsFile(nodes: Nodes, x: Path, but: Path)
    requires Absolute(x)
  {
    x != but && Reach(nodes, x).Some? && Reach(nodes, x).value in nodes && nodes[Reach(nodes, x).value].kind == Reg
  }

  lemma {:induction false} NotDirIff(nodes: Nodes, ds: nat, nb: nat, p: Path)
    requires NodesOk(nodes, ds, nb) && Named(nodes, nodes.Keys) && Absolute(p)
    ensures Walk(nodes, p).NotDir? <==> ThroughFile(nodes, p, "")
    decreases |p|
  {
    hide NodesOk, Named;
    RootIsDir(nodes, ds, nb);
    var k := LastSlash(p);
    if k > 0 {
      NotDirIff(nodes, ds, nb, p[..k]);
      WalkLive(nodes, ds, nb, p[..k]);
      FileAncestors(nodes, ds, nb, p[..k]);
    }
  }

  lemma RootIsDir(nodes: Nodes, ds: nat, nb: nat)
    requires NodesOk(nodes, ds, nb)
    ensures ROOT_INO in nodes && nodes[ROOT_INO].kind == Dir
  {
  }

  /** A name that resolves has only directories above it. */
  lemma FileAncestors(nodes: Nodes, ds: nat, nb: nat, p: Path)
    requires NodesOk(nodes, ds, nb) && Named(nodes, nodes.Keys) && Absolute(p)
    requires Walk(nodes, p).NotDir? <==> ThroughFile(nodes, p, "")
    ensures Reach(nodes, p).Some? ==> !ThroughFile(nodes, p, "")
  {
  }

  lemma {:induction false} ThroughAfter(v: Volume, fr: Path, p: Path)
    requires Sound(v) && Detach(v, fr).Ok? && Absolute(p)
    ensures ThroughFile(Detach(v, fr).vol.nodes, p, "") <==> ThroughFile(v.nodes, p, fr)
    decreases |p|
  {
    hide Sound, Detach, Unnamed;
    var k := LastSlash(p);
    if k > 0 {
      var x := p[..k];
      ThroughAfter(v, fr, x);
      DetachSound(v, fr);
      if x != "/" {
        DetachResolves(v, fr, x);
      } else {
        SlashIsNoEntry(v, fr);
      }
    }
  }

  /** The root has no entry "/". */
  lemma SlashIsNoEntry(v: Volume, fr: Path)
    requires Sound(v) && Detach(v, fr).Ok?
    ensures Reach(v.nodes, "/").None? && Reach(Detach(v, fr).vol.nodes, "/").None?
  {
    DetachSound(v, fr);
    NoRootSlash(v.nodes, v.ds, v.nb);
    NoRootSlash(Detach(v, fr).vol.nodes, v.ds, v.nb);
  }

  /** Exactly when rename is refused although it has already removed the source: the source is a
      regular file and the target lies below another regular file. The source's path is gone. */
  lemma RenameLosesIff(v: Volume, fr: Path, to: PlainPath)
    requires Sound(v)
    ensures Rename(v, fr, to).Refused? ==>
              (Rename(v, fr, to).vol == v || Resolve(Rename(v, fr, to).vol.nodes, fr).None?)
    ensures Rename(v, fr, to).Refused? && Rename(v, fr, to).vol != v <==>
            Movable(v, fr) && Absolute(to) && ThroughFile(v.nodes, to, fr)
  {
    hide Sound, Detach, Attach, Unnamed, Movable;
    DetachIs(v, fr);
    DetachIff(v, fr);
    if Detach(v, fr).Ok? {
      DetachSound(v, fr);
      var u, f := Detach(v, fr).vol, Detach(v, fr).val;
      AttachSound(u, to, f);
      DetachResolves(v, fr, fr);
      TargetBlocked(v, u, fr, to);
    }
  }

  lemma TargetBlocked(v: Volume, u: Volume, fr: Path, to: Path)
    requires Sound(v) && Sound(u) && Detach(v, fr).Ok? && u == Detach(v, fr).vol
    ensures GetDe(u.nodes, to).NotDir? <==> Absolute(to) && ThroughFile(v.nodes, to, fr)
  {
    if Absolute(to) {
      if to != "/" {
        NotDirIff(u.nodes, u.ds, u.nb, to);
      }
      ThroughAfter(v, fr, to);
    }
  }

  const UNDER_FILE: PlainPath := "/b/c"

  /** For instance, renaming file /a to /b/c where /b is a file reports an error and drops /a. */
  lemma RenameLosesExample(v: Volume, a: nat, b: nat)
    requires Sound(v) && a in v.nodes && b in v.nodes && v.nodes[a].kind == Reg && v.nodes[b].kind == Reg
    requires Resolve(v.nodes, "/a") == Some(a) && Resolve(v.nodes, "/b") == Some(b)
    ensures var r := Rename(v, "/a", UNDER_FILE); r.Refused? && Resolve(r.vol.nodes, "/a").None?
  {
    hide Sound;
    RootStays(v);
    var p := UNDER_FILE;
    assert p[2] == '/' && p[3] == 'c';
    assert LastSlash(p) == 2 && p[..2] == "/b";
    assert Dirname("/a") == "/";
    assert ThroughFile(v.nodes, p, "/a");
    RenameLosesIff(v, "/a", p);
  }
}
