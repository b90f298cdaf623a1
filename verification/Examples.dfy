/**
 Inputs at which the file system does not do what its comments or a first reading promise: for each
 exact condition proved elsewhere, one state that a formatted volume leads to (or, where that would
 take too many requests, a sound one) and the request that fails there.
 */
module Examples {
  import opened Layout
  import opened Paths
  import opened Directory
  import opened Raw
  import opened Volumes
  import opened Invariants
  import opened Growth
  import opened CreateOps
  import opened Removal
  import opened RenameOps
  import opened HandleOps
  import opened DirWrites
  import opened NewVolumes
  import opened Outcomes
  import opened Accounting

  const FILE_A: PlainPath := "/a"
  const FILE_B: PlainPath := "/b"
  const DOUBLE: PlainPath := "//a"

  // ---- a write through the handle of a directory ------------------------------------

  /** opendir "/" on a formatted volume. */
  lemma RootOpened(ds: nat, nb: nat)
    requires 1 <= ds < nb
    ensures var v := NewVolume(ds, nb);
            && Open(v, "/", Dir).Ok? && Open(v, "/", Dir).val == START_FD
            && var u := Open(v, "/", Dir).vol;
            && Inv(u) && u == v.(nodes := map[ROOT_INO := v.nodes[ROOT_INO].(refs := 2)],
                              open := map[START_FD := ROOT_INO], nextFd := START_FD + 1)
  {
    hide Sound, DotRaw, DotSlots;
    var v := NewVolume(ds, nb);
    NewInv(ds, nb);
    OpenSound(v, "/", Dir);
    assert GetDe(v.nodes, "/") == Found(ROOT_INO, ROOT_INO, 0);
    assert v.nodes[ROOT_INO].kind == Dir && v.nodes[ROOT_INO].refs == 1;
    OpenHandled(v, "/", Dir);
  }

  /** Writing a block of zeros through that handle succeeds. Afterwards "." and ".." are gone, no slot of
      the root is in use although its link count is 2, and the root has a size. */
  lemma ZeroedRoot(ds: nat, nb: nat)
    requires 1 <= ds < nb
    ensures var u := Open(NewVolume(ds, nb), "/", Dir).vol;
            && var r := Write(u, START_FD, Codec.Zeros(BLK_SZ), 0);
            && r.Ok? && r.val == BLK_SZ && ROOT_INO in r.vol.nodes
            && var n := r.vol.nodes[ROOT_INO];
            && (forall j :: 0 <= j < |n.slots| ==> n.slots[j] == EMPTY) && |n.slots| == NUM_DIRENTS_PER_BLOCK
            && n.links == 2 && LiveSet(n.slots) == {} && n.dirSize == BLK_SZ
            && !Sound(r.vol)
  {
    hide Sound, Handled, DotRaw, DotSlots, SlotsIn, LiveSet;
    RootOpened(ds, nb);
    var u, data := Open(NewVolume(ds, nb), "/", Dir).vol, Codec.Zeros(BLK_SZ);
    var n := u.nodes[ROOT_INO];
    assert BlocksOf(n) == 1 && n.dirSize == 0 && n.own[0] == ds;
    assert Covering(BLK_SZ) == 1;
    var m := DirWritten(n, u.next, data, 0);
    assert m.bytes == data;
    BlankSlots();
    NoneLive(m.slots);
    WriteSoundIff(u, START_FD, data, 0);
  }

  /** Writing the root's own bytes back instead gives it the same size and breaks nothing. */
  lemma RootWrittenBack(ds: nat, nb: nat)
    requires 1 <= ds < nb
    ensures var u := Open(NewVolume(ds, nb), "/", Dir).vol;
            && ROOT_INO in u.nodes
            && var r := Write(u, START_FD, u.nodes[ROOT_INO].bytes, 0);
            && r.Ok? && r.val == BLK_SZ && Sound(r.vol)
            && r.vol == u.(nodes := map[ROOT_INO := u.nodes[ROOT_INO].(dirSize := BLK_SZ)])
  {
    hide Sound, Handled, DotRaw, DotSlots, SlotsIn, LiveSet, RawLeft, SlotsLeft;
    RootOpened(ds, nb);
    var u := Open(NewVolume(ds, nb), "/", Dir).vol;
    var n := u.nodes[ROOT_INO];
    assert BlocksOf(n) == 1 && n.own[0] == ds && Covering(BLK_SZ) == 1;
    SameBytes(u, ROOT_INO, n.bytes, 0);
    WriteSoundIff(u, START_FD, n.bytes, 0);
    assert GrowTo(n.own, 1, 1, u.next) == n.own;
  }

  lemma NoneLive(s: seq<Dentry>)
    requires forall j :: 0 <= j < |s| ==> s[j] == EMPTY
    ensures LiveSet(s) == {}
  {
  }

  // ---- files made one after the other -----------------------------------------------

  /** Enough is left for a few more files, and inode numbers are still small. */
  ghost predicate Roomy(v: Volume) {
    && Inv(v) && v.ds < v.next && v.free >= 1000 && v.next + 1000 < v.nb && v.inoFree > 0
    && |v.open| < MAX_OPEN_FILES && v.nextFd >= START_FD && 9 !in v.nodes
    && |v.nodes[ROOT_INO].slots| <= 2 * NUM_DIRENTS_PER_BLOCK
  }

  lemma TopOk(v: Volume, p: PlainPath)
    requires Roomy(v) && Resolve(v.nodes, p).None? && (p == FILE_A || p == FILE_B || p == DOUBLE)
    ensures Create(v, p).Ok? && Dirname(p) == "/" && Resolve(v.nodes, "/") == Some(ROOT_INO)
  {
    hide Sound, Handled, Create, Resolve, AllocIno, Walk, ThroughFile;
    TopName(v, p);
    CreateIff(v, p);
  }

  /** create of a name in the root, with or without a second slash. */
  lemma CreateTop(v: Volume, p: PlainPath)
    requires Roomy(v) && Resolve(v.nodes, p).None? && (p == FILE_A || p == FILE_B || p == DOUBLE)
    ensures Create(v, p).Ok? && AllocIno(v).Ok? && AllocIno(v).val <= 9 && (8 !in v.nodes ==> AllocIno(v).val == 8)
    ensures var w, i, fh := Create(v, p).vol, AllocIno(v).val, Create(v, p).val;
            && Inv(w) && w.nb == v.nb && w.ds < w.next && w.next <= v.next + PREALLOC + 2
            && w.free + PREALLOC + 2 >= v.free
            && w.open == v.open[fh := i] && w.nextFd == (v.nextFd + 1) % FD_MOD && w.inoFree + 1 == v.inoFree
            && i in w.nodes && w.nodes.Keys == v.nodes.Keys + {i}
            && w.nodes[i].kind == Reg && w.nodes[i].refs == 1 && w.nodes[i].bytes == []
            && (forall k :: 0 <= k < OWN_LEN ==> w.nodes[i].own[k] < w.next)
            && (forall j :: j in v.nodes && j != ROOT_INO ==> w.nodes[j] == v.nodes[j])
            && |w.nodes[ROOT_INO].slots| <= |v.nodes[ROOT_INO].slots| + NUM_DIRENTS_PER_BLOCK
  {
    hide Sound, Handled, Create, Resolve, AllocIno, Extends, Insert;
    TopOk(v, p);
    CreateSound(v, p);
    CreateHandled(v, p);
    CreatedCounts(v, p);
    SmallNumber(v);
    var d, i, v1, m, n := CreateExtends(v, p);
    ExtendsFacts(v, Create(v, p).vol, d, p, i, m, n);
  }

  lemma ExtendsFacts(v: Volume, w: Volume, d: nat, p: Path, i: nat, m: Node, n: Node)
    requires Extends(v, w, d, p, i, m, n) && v.ds <= v.next
    ensures FIRST_UNRESERVED_INO <= i && i in w.nodes && w.nodes[i] == n && w.nodes.Keys == v.nodes.Keys + {i}
    ensures w.nb == v.nb && w.ds == v.ds && v.next <= w.next && w.free + (w.next - v.next) == v.free
    ensures d in v.nodes && d in w.nodes && |w.nodes[d].slots| <= |v.nodes[d].slots| + NUM_DIRENTS_PER_BLOCK
    ensures forall j :: j in v.nodes && j != d ==> j in w.nodes && w.nodes[j] == v.nodes[j]
    ensures forall k :: 0 <= k < OWN_LEN ==> n.own[k] < w.next
  {
    hide Marked, NodeOk, OnDevice, Insert;
  }

  lemma TopName(v: Volume, p: Path)
    requires Sound(v) && (p == FILE_A || p == FILE_B || p == DOUBLE)
    ensures Dirname(p) == "/" && Resolve(v.nodes, "/") == Some(ROOT_INO) && ROOT_INO in v.nodes
    ensures v.nodes[ROOT_INO].kind == Dir
    ensures Absolute(p) && !ThroughFile(v.nodes, p, "") && |p| <= 3
  {
    hide Owned, Named, Marked, Counted;
    if p == DOUBLE {
      assert p[..1] == "/" && p[1] == '/' && p[2] == 'a';
      assert LastSlash(p) == 1;
      NoRootSlash(v.nodes, v.ds, v.nb);
    } else {
      assert p[0] == '/' && p[1] != '/';
      assert LastSlash(p) == 0;
    }
  }

  /** The first clear bit is below ten while number 9 is free. */
  lemma SmallNumber(v: Volume)
    requires Sound(v) && v.inoFree > 0 && 9 !in v.nodes
    ensures AllocIno(v).Ok? && AllocIno(v).val <= 9 && (8 !in v.nodes ==> AllocIno(v).val <= 8)
  {
    hide NodesOk, Owned, Named, Counted;
    assert !v.bitmap[9] && (8 !in v.nodes ==> !v.bitmap[8]);
  }

  lemma NewRoomy(ds: nat, nb: nat)
    requires ds >= 1 && nb >= ds + 2000
    ensures Roomy(NewVolume(ds, nb))
  {
    hide Inv, DotRaw;
    NewInv(ds, nb);
  }

  /** create "//a" on a formatted volume succeeds, and the name it enters is never found again. */
  lemma DoubleSlash(ds: nat, nb: nat)
    requires ds >= 1 && nb >= ds + 2000
    ensures var r := Create(NewVolume(ds, nb), DOUBLE); r.Ok? && Resolve(r.vol.nodes, DOUBLE).None?
  {
    hide Sound, Handled, Create, Resolve, AllocIno;
    var v := NewVolume(ds, nb);
    NewRoomy(ds, nb);
    NothingNamed(ds, nb, DOUBLE);
    CreateTop(v, DOUBLE);
    CreateResolves(v, DOUBLE, DOUBLE);
  }

  /** A volume with the file "/a", open through the handle create gave out. */
  lemma WithA(ds: nat, nb: nat)
    requires ds >= 1 && nb >= ds + 3000
    ensures var v := NewVolume(ds, nb);
            var r := Create(v, FILE_A);
            && r.Ok? && r.val in r.vol.open && r.vol.open[r.val] in r.vol.nodes && Inv(r.vol) && r.vol.nb == nb
            && var n := r.vol.nodes[r.vol.open[r.val]];
            && r.vol.open[r.val] == 8 && n.kind == Reg && n.bytes == []
            && (forall k :: 0 <= k < OWN_LEN ==> n.own[k] < nb)
            && Resolve(r.vol.nodes, FILE_A) == Some(r.vol.open[r.val]) && Resolve(r.vol.nodes, FILE_B).None?
  {
    hide Sound, Handled, Create, Resolve, AllocIno;
    var v := NewVolume(ds, nb);
    NewRoomy(ds, nb);
    NothingNamed(ds, nb, FILE_A);
    NothingNamed(ds, nb, FILE_B);
    CreateTop(v, FILE_A);
    CreateResolves(v, FILE_A, FILE_A);
    CreateResolves(v, FILE_A, FILE_B);
  }

  lemma RoomyA(ds: nat, nb: nat)
    requires ds >= 1 && nb >= ds + 3000
    ensures Roomy(Create(NewVolume(ds, nb), FILE_A).vol)
  {
    hide Sound, Handled, Create, Resolve, AllocIno;
    var v := NewVolume(ds, nb);
    NewRoomy(ds, nb);
    NothingNamed(ds, nb, FILE_A);
    CreateTop(v, FILE_A);
    assert |v.open| == 0 && v.nextFd == START_FD;
  }

  /** One byte written just past the largest file is counted as none and changes nothing. */
  lemma WritePastLargest(ds: nat, nb: nat)
    requires ds >= 1 && nb >= ds + 3000
    ensures var c := Create(NewVolume(ds, nb), FILE_A);
            && c.Ok? && var r := Write(c.vol, c.val, [1], MAX_FILE_BYTES);
                     && r.Ok? && r.val == 0 && c.val in c.vol.open && c.vol.open[c.val] in r.vol.nodes
                     && r.vol.nodes[c.vol.open[c.val]].bytes == []
  {
    hide Sound, Handled, Create, Resolve, Splice;
    WithA(ds, nb);
    var c := Create(NewVolume(ds, nb), FILE_A);
    assert Reaches(c.vol.nodes[c.vol.open[c.val]].own, nb, 0, MAX_FILE_BYTES + 1);
  }

  // ---- numbers past the first bitmap block ------------------------------------------

  /** A sound volume whose one file "/b" has inode number 32768, which nobody has open. */
  function FarInode(ds: nat, nb: nat): Volume
    requires 1 <= ds && ds + 2000 <= nb
  {
    var v, i := NewVolume(ds, nb), BLK_SZ_BITS;
    v.(free := v.free - PREALLOC, next := v.next + PREALLOC, inoFree := v.inoFree - 1, bitmap := v.bitmap[i := true],
    nodes := v.nodes[ROOT_INO := WithEntry(v.nodes[ROOT_INO], Dentry(FILE_B, i))]
    [i := Node(Reg, 0, 0, [], [], PreallocOwn(v.next), 0)])
  }

  lemma FarExtends(ds: nat, nb: nat, m: Node, n: Node)
    requires 1 <= ds && ds + 2000 <= nb
    requires m == WithEntry(NewVolume(ds, nb).nodes[ROOT_INO], Dentry(FILE_B, BLK_SZ_BITS))
    requires n == Node(Reg, 0, 0, [], [], PreallocOwn(ds + 1), 0)
    ensures Extends(NewVolume(ds, nb), FarInode(ds, nb), ROOT_INO, FILE_B, BLK_SZ_BITS, m, n)
  {
    hide Marked, DirOk, DotRaw, PutRecord, NewRaw, Insert, FirstEmpty, DotSlots, PreallocOwn;
    var v, w, i := NewVolume(ds, nb), FarInode(ds, nb), BLK_SZ_BITS;
    RootEntered(ds, nb, m);
    PreallocFacts(ds, ds + 1);
    FarMarked(ds, nb);
    assert v.nodes.Keys == {ROOT_INO};
    assert RegOk(n, ds) && OnDevice(n, ds, nb) && OnDevice(m, ds, nb);
    assert NewIds(v, w, v.nodes[ROOT_INO].own, m.own, n.own);
  }

  lemma RootEntered(ds: nat, nb: nat, m: Node)
    requires 1 <= ds && ds + 2000 <= nb
    requires m == WithEntry(NewVolume(ds, nb).nodes[ROOT_INO], Dentry(FILE_B, BLK_SZ_BITS))
    ensures DirOk(m, ds) && m.own == FirstOwn(ds)
  {
    hide DotRaw, PutRecord, NewRaw;
    var n, de := NewVolume(ds, nb).nodes[ROOT_INO], Dentry(FILE_B, BLK_SZ_BITS);
    NewDirOk(n, ds, ROOT_INO, ROOT_INO);
    assert FirstEmpty(n.slots) == 2 by { assert n.slots[2].name == ""; }
    assert Find(n.slots, FILE_B) == |n.slots|;
    assert Absolute(FILE_B);
    InsertDir(n, ds, de, m);
    EntrySpelled(n, de);
  }

  lemma FarMarked(ds: nat, nb: nat)
    requires 1 <= ds && ds + 2000 <= nb
    ensures Marked(FarInode(ds, nb).bitmap, FarInode(ds, nb).inoFree, {ROOT_INO} + {BLK_SZ_BITS})
  {
    BitsMarked();
    var a, b, i := NewBits(), NewBits()[BLK_SZ_BITS := true], BLK_SZ_BITS;
    assert SetBits(b, NUM_INODES) == SetBits(a, NUM_INODES) + {i};
    assert FarInode(ds, nb).bitmap == b;
  }

  lemma NothingFound(ds: nat, nb: nat)
    requires 1 <= ds && ds + 2000 <= nb
    ensures var nodes := NewVolume(ds, nb).nodes;
            GetDe(nodes, FILE_B).Missing? && Find(nodes[ROOT_INO].slots, FILE_B) == |nodes[ROOT_INO].slots|
  {
    hide DotRaw;
    assert FILE_B[0] == '/' && FILE_B[1] != '/';
    assert LastSlash(FILE_B) == 0;
  }

  /** unlink of that file does not come through: one bitmap block is loaded, and its bit would lie past it. */
  lemma FarUnlink(ds: nat, nb: nat)
    requires 1 <= ds && ds + 2000 <= nb
    ensures Sound(FarInode(ds, nb)) && Resolve(FarInode(ds, nb).nodes, FILE_B) == Some(BLK_SZ_BITS)
    ensures Unlink(FarInode(ds, nb), FILE_B).Fatal?
  {
    hide Sound, DotRaw, PutRecord, NewRaw, Insert, PreallocOwn, FirstEmpty;
    var v, w := NewVolume(ds, nb), FarInode(ds, nb);
    var m := WithEntry(v.nodes[ROOT_INO], Dentry(FILE_B, BLK_SZ_BITS));
    var n := Node(Reg, 0, 0, [], [], PreallocOwn(ds + 1), 0);
    NewInv(ds, nb);
    FarExtends(ds, nb, m, n);
    ExtendsSound(v, w, ROOT_INO, FILE_B, BLK_SZ_BITS, m, n);
    TopName(v, FILE_B);
    NothingNamed(ds, nb, FILE_B);
    NothingFound(ds, nb);
    SoundNodes(v);
    ExtendsResolve(v, w, ROOT_INO, FILE_B, BLK_SZ_BITS, m, n, FILE_B);
  }

  lemma SoundNodes(v: Volume)
    requires Sound(v)
    ensures NodesOk(v.nodes, v.ds, v.nb)
  {
  }

  // ---- a partly filled indirect list ------------------------------------------------

  /** A new directory that grows to thirteen blocks holds fourteen, and gives thirteen of them back. */
  lemma LeakyDirectory(ds: nat)
    ensures var own := GrowTo(FirstOwn(ds + 1), 1, 13, ds + 2);
            Freed(own, ds) == 13 && |OwnSet(own, ds)| == 14
  {
    hide GrowTo, Freed, OwnSet;
    var own := GrowTo(FirstOwn(ds + 1), 1, 13, ds + 2);
    GrowToShape(FirstOwn(ds + 1), ds + 1, 1, 13, ds + 2);
    FreedExact(own, ds, 13);
    FreedIs(own, ds, 13);
  }

  // ---- a rename over an open file ---------------------------------------------------

  /** create "/a", create "/b", rename "/a" to "/b": the handle of "/b" then names an inode that is gone. */
  lemma RenameOverOpen(ds: nat, nb: nat)
    requires ds >= 1 && nb >= ds + 4000
    ensures var a := Create(NewVolume(ds, nb), FILE_A);
            && a.Ok?
            && var b := Create(a.vol, FILE_B);
            && b.Ok? && Inv(b.vol)
            && var r := Rename(b.vol, FILE_A, FILE_B);
            && r.Ok? && !Handled(r.vol.nodes, r.vol.open, r.vol.nextFd)
  {
    hide Sound, Handled, Create, Resolve, AllocIno, Rename;
    WithA(ds, nb);
    var v := Create(NewVolume(ds, nb), FILE_A).vol;
    RoomyA(ds, nb);
    CreateTop(v, FILE_B);
    var w := Create(v, FILE_B).vol;
    CreateResolves(v, FILE_B, FILE_A);
    CreateResolves(v, FILE_B, FILE_B);
    RenameIff(w, FILE_A, FILE_B);
    RenameHandledIff(w, FILE_A, FILE_B);
  }
}
