/** Creating files and directories. */
module CreateOps {
  import opened Layout
  import opened Paths
  import opened Directory
  import opened Raw
  import opened Volumes
  import opened Namespace
  import opened Invariants
  import opened Growth

  lemma PreallocFacts(ds: nat, next: nat)
    requires ds < next
    ensures var own := PreallocOwn(next);
            && (forall k :: 0 <= k < OWN_LEN ==> next <= own[k] < next + PREALLOC && own[k] > ds)
            && (forall k, l :: 0 <= k < OWN_LEN && 0 <= l < OWN_LEN && own[k] == own[l] ==> k == l)
  {
  }

  /** The intermediate volumes of a successful create. */
  lemma CreateUnfold(v: Volume, p: PlainPath) returns (d: nat, i: nat, v0: Volume, v1: Volume)
    requires Create(v, p).Ok?
    ensures NewEntryDir(v, p).Ok? && d == NewEntryDir(v, p).val && d in v.nodes
    ensures AllocIno(v) == Ok(v0, i)
    ensures AddDentry(v0, d, p, i) == Ok(v1, ())
    ensures OpenHandle(v1, i).Ok? && Create(v, p).val == OpenHandle(v1, i).val
    ensures v1.free >= PREALLOC && v1.next + NUM_DIRECT_BLOCKS < v1.nb
    ensures var w, o := Create(v, p).vol, OpenHandle(v1, i).vol;
            w == v1.(free := v1.free - PREALLOC, next := v1.next + PREALLOC, open := o.open, nextFd := o.nextFd,
            nodes := v1.nodes[i := Node(Reg, 1, 0, [], [], PreallocOwn(v1.next), 0)])
  {
    d := NewEntryDir(v, p).val;
    i := AllocIno(v).val;
    v0 := AllocIno(v).vol;
    v1 := AddDentry(v0, d, p, i).vol;
  }

  /** The number and the name of a new entry, whichever blocks were taken in between. */
  lemma NewEntryAdded(v: Volume, v0: Volume, v1: Volume, d: nat, p: PlainPath, i: nat)
    requires Sound(v) && NewEntryDir(v, p).Ok? && d == NewEntryDir(v, p).val && d in v.nodes
    requires AllocIno(v).Ok? && AllocIno(v).val == i
    requires v.next <= v0.next && v0 == AllocIno(v).vol.(free := v0.free, next := v0.next)
    requires AddDentry(v0, d, p, i) == Ok(v1, ())
    ensures i !in v.nodes && FIRST_UNRESERVED_INO <= i < NUM_INODES
    ensures Marked(v0.bitmap, v0.inoFree, v.nodes.Keys + {i})
    ensures v0.nodes == v.nodes && Entered(v0, v1, d, p, i)
    ensures Resolve(v.nodes, Dirname(p)) == Some(d)
  {
    NewEntryFacts(v, p);
    AllocInoSound(v);
    assert Owned(v0.nodes, v0.ds, v0.next);
    AddDentryEnters(v0, d, p, i);
  }

  lemma SoundParts(v: Volume)
    requires Sound(v)
    ensures 1 <= v.ds < v.nb && v.ds < v.next && Owned(v.nodes, v.ds, v.next)
  {
  }

  lemma CreateExtends(v: Volume, p: PlainPath) returns (d: nat, i: nat, v1: Volume, m: Node, n: Node)
    requires Sound(v) && Create(v, p).Ok?
    ensures AllocIno(v).Ok? && AllocIno(v).val == i && Resolve(v.nodes, Dirname(p)) == Some(d)
    ensures Extends(v, Create(v, p).vol, d, p, i, m, n)
    ensures n == Node(Reg, 1, 0, [], [], n.own, 0)
    ensures var w, o := Create(v, p).vol, OpenHandle(v1, i);
            && v1.open == v.open && v1.nextFd == v.nextFd
            && o.Ok? && Create(v, p).val == o.val && w.open == o.vol.open && w.nextFd == o.vol.nextFd
  {
    hide Sound, Marked, NewEntryDir, AddDentry, DirOk, Resolve, Named;
    var v0;
    d, i, v0, v1 := CreateUnfold(v, p);
    SoundParts(v);
    NewEntryAdded(v, v0, v1, d, p, i);
    m := v1.nodes[d];
    n := Node(Reg, 1, 0, [], [], PreallocOwn(v1.next), 0);
    PreallocFacts(v.ds, v1.next);
    Assemble(v, v0, v1, Create(v, p).vol, d, p, i, n);
  }

  /** A successful create keeps everything sound; a refused one changes nothing. */
  lemma CreateSound(v: Volume, p: PlainPath)
    requires Sound(v)
    ensures Create(v, p).Ok? ==> Sound(Create(v, p).vol)
    ensures Create(v, p).Refused? ==> Create(v, p).vol == v
  {
    AllocInoSound(v);
    if Create(v, p).Ok? {
      var d, i, v1, m, n := CreateExtends(v, p);
      ExtendsSound(v, Create(v, p).vol, d, p, i, m, n);
    }
  }

  /** The new handle is unused before, names the new inode, and reference counts stay exact. */
  lemma CreateHandled(v: Volume, p: PlainPath)
    requires Inv(v) && Create(v, p).Ok?
    ensures var w, fh := Create(v, p).vol, Create(v, p).val;
            && fh !in v.open && AllocIno(v).Ok? && w.open == v.open[fh := AllocIno(v).val]
            && Handled(w.nodes, w.open, w.nextFd)
  {
    var d, i, v1, m, n := CreateExtends(v, p);
    ExtendsOpened(v, Create(v, p).vol, d, p, i, m, n, v1);
  }

  lemma MkdirUnfold(v: Volume, p: PlainPath) returns (d: nat, i: nat, v0: Volume, v1: Volume)
    requires Mkdir(v, p).Ok?
    ensures NewEntryDir(v, p).Ok? && d == NewEntryDir(v, p).val && d in v.nodes
    ensures AllocIno(v).Ok? && AllocIno(v).val == i && i >= FIRST_UNRESERVED_INO
    ensures AllocBlk(AllocIno(v).vol) == Ok(v0, v.next) && v.next < v.nb
    ensures AddDentry(v0, d, p, i) == Ok(v1, ())
    ensures Mkdir(v, p).vol ==
            v1.(nodes := v1.nodes[i := DotDir(0, i, d, v.next)])
  {
    d := NewEntryDir(v, p).val;
    i := AllocIno(v).val;
    v0 := AllocBlk(AllocIno(v).vol).vol;
    v1 := AddDentry(v0, d, p, i).vol;
  }

  lemma MkdirExtends(v: Volume, p: PlainPath) returns (d: nat, i: nat, m: Node, n: Node)
    requires Sound(v) && Mkdir(v, p).Ok?
    ensures AllocIno(v).Ok? && AllocIno(v).val == i && Resolve(v.nodes, Dirname(p)) == Some(d)
    ensures Extends(v, Mkdir(v, p).vol, d, p, i, m, n)
    ensures n == DotDir(0, i, d, v.next)
    ensures Mkdir(v, p).vol.open == v.open && Mkdir(v, p).vol.nextFd == v.nextFd
  {
    hide Sound, Marked, NewEntryDir, AddDentry, DirOk, Resolve, Named, LiveSet;
    var v0, v1;
    d, i, v0, v1 := MkdirUnfold(v, p);
    SoundParts(v);
    NewEntryAdded(v, v0, v1, d, p, i);
    m := v1.nodes[d];
    n := DotDir(0, i, d, v.next);
    ParentIno(v, p, d);
    NewDirOk(n, v.ds, i, d);
    Assemble(v, v0, v1, Mkdir(v, p).vol, d, p, i, n);
  }

  lemma ParentIno(v: Volume, p: Path, d: nat)
    requires NewEntryDir(v, p).Ok? && d == NewEntryDir(v, p).val
    ensures d >= ROOT_INO
  {
  }

  /** The bytes of a new directory's block spell its dots. */
  lemma DotsRead(self: nat, parent: nat)
    requires self < U64 && parent < U64
    ensures SlotsIn(DotRaw(self, parent)) == DotSlots(self, parent)
  {
    hide PutRecord, SlotsIn;
    BlankSlots();
    var zeros := Codec.Zeros(BLK_SZ);
    PutSlot(zeros, 0, Dentry(".", self));
    PutSlot(PutRecord(zeros, 0, Dentry(".", self)), 1, Dentry("..", parent));
  }

  lemma NewDirOk(n: Node, ds: nat, i: nat, d: nat)
    requires 1 <= ds && ROOT_INO <= i < U64 && ROOT_INO <= d < U64
    requires n.kind == Dir && n.links == 2 && n.slots == DotSlots(i, d) && n.bytes == DotRaw(i, d) && n.dirSize == 0
    requires n.own[0] >= ds && forall k :: 0 < k < OWN_LEN ==> n.own[k] == 0
    ensures DirOk(n, ds)
  {
    hide SlotsIn, SlotIn, DotRaw, Spells;
    DotsRead(i, d);
    SpellsAll(n);
    assert LiveSet(n.slots) == {0, 1};
  }

  lemma MkdirSound(v: Volume, p: PlainPath)
    requires Sound(v)
    ensures Mkdir(v, p).Ok? ==> Sound(Mkdir(v, p).vol)
    ensures Mkdir(v, p).Refused? ==> Mkdir(v, p).vol == v
  {
    AllocInoSound(v);
    if Mkdir(v, p).Ok? {
      var d, i, m, n := MkdirExtends(v, p);
      ExtendsSound(v, Mkdir(v, p).vol, d, p, i, m, n);
    }
  }

  lemma MkdirHandled(v: Volume, p: PlainPath)
    requires Inv(v) && Mkdir(v, p).Ok?
    ensures var w := Mkdir(v, p).vol; w.open == v.open && Handled(w.nodes, w.open, w.nextFd)
  {
    var d, i, m, n := MkdirExtends(v, p);
    ExtendsHandled(v, Mkdir(v, p).vol, d, p, i, m, n);
  }

  lemma NoRootSlash(nodes: Nodes, ds: nat, nb: nat)
    requires NodesOk(nodes, ds, nb)
    ensures Step(nodes, ROOT_INO, "/").None?
  {
    var s := nodes[ROOT_INO].slots;
    assert DirOk(nodes[ROOT_INO], ds);
    forall j | 0 <= j < |s| ensures !Hit(s[j], "/") {
    }
  }

  lemma ExtendsStep(v: Volume, w: Volume, d: nat, p: Path, i: nat, m: Node, n: Node, e: nat, q: Path)
    requires Extends(v, w, d, p, i, m, n) && Absolute(q) && q != p
    ensures Step(w.nodes, e, q) == Step(v.nodes, e, q)
  {
    if e == d {
      FindInsert(v.nodes[d].slots, Dentry(p, i), q);
    } else if e == i {
      assert n.kind == Dir ==> Find(n.slots, q) == |n.slots|;
    }
  }

  /** The namespace gains exactly the new path, and only if the walk can get there. */
  lemma ExtendsResolve(v: Volume, w: Volume, d: nat, p: Path, i: nat, m: Node, n: Node, q: Path)
    requires NodesOk(v.nodes, v.ds, v.nb)
    requires Absolute(p) && p != "/" && GetDe(v.nodes, p).Missing? && Resolve(v.nodes, Dirname(p)) == Some(d)
    requires Walkable(p) ==> Find(v.nodes[d].slots, p) == |v.nodes[d].slots|
    requires Extends(v, w, d, p, i, m, n)
    ensures Resolve(w.nodes, q) == if q == p && Walkable(p) then Some(i) else Resolve(v.nodes, q)
  {
    hide Marked, OnDevice, DirOk, RegOk, NewIds, Insert;
    var a, b := v.nodes, w.nodes;
    var r := if Walkable(p) then Some(i) else None;
    forall e, x | Absolute(x) && x != p ensures Step(b, e, x) == Step(a, e, x) {
      ExtendsStep(v, w, d, p, i, m, n, e, x);
    }
    if Walkable(p) {
      UpIsDirname(a, p);
      FindInserted(a[d].slots, Dentry(p, i));
      assert Step(b, d, p) == Some(i);
      forall x | Absolute(x) && x != p ensures Step(b, i, x).None? {
        assert Step(b, i, x) == Step(a, i, x);
      }
    } else {
      NoRootSlash(a, v.ds, v.nb);
      DoubleSlash(a, p);
    }
    assert OneEntryChanged(a, b, p, r);
    ResolveChanged(a, b, p, r, q);
    if Under(q, p) {
      BelowMissing(a, p, q);
    }
  }

  /** Create is one update of the path-to-inode map, unless the path begins with two slashes: then
      the entry is written but no path resolves to it. */
  lemma CreateResolves(v: Volume, p: PlainPath, q: Path)
    requires Sound(v) && Create(v, p).Ok?
    ensures AllocIno(v).Ok?
    ensures Resolve(v.nodes, p).None?
    ensures Resolve(Create(v, p).vol.nodes, q) ==
            if q == p && Walkable(p) then Some(AllocIno(v).val) else Resolve(v.nodes, q)
  {
    var d, i, v1, m, n := CreateExtends(v, p);
    NewEntryFacts(v, p);
    ExtendsResolve(v, Create(v, p).vol, d, p, i, m, n, q);
  }

  lemma MkdirResolves(v: Volume, p: PlainPath, q: Path)
    requires Sound(v) && Mkdir(v, p).Ok?
    ensures AllocIno(v).Ok?
    ensures Resolve(v.nodes, p).None?
    ensures Resolve(Mkdir(v, p).vol.nodes, q) ==
            if q == p && Walkable(p) then Some(AllocIno(v).val) else Resolve(v.nodes, q)
  {
    var d, i, m, n := MkdirExtends(v, p);
    NewEntryFacts(v, p);
    ExtendsResolve(v, Mkdir(v, p).vol, d, p, i, m, n, q);
  }
}
