/** What the single steps of the block-level operations do to the flat volume. */
module Steps {
  import opened Layout
  import opened Paths
  import opened Directory
  import opened Raw
  import opened Volumes
  import opened Invariants
  import opened Growth
  import opened CreateOps
  import opened RemoveOps
  import opened RenameOps
  import opened DirWrites
  import FileIo
  import opened Blocks
  import opened Lookup

  /** Enough for searching and updating directories; holds between the steps of an operation too. */
  ghost predicate Shaped(v: Volume) {
    1 <= v.ds < v.next && NodesOk(v.nodes, v.ds, v.nb) && Owned(v.nodes, v.ds, v.next)
  }

  /** No blank slot before slot m of directory d. */
  ghost predicate FullBelow(dk: Disk, ds: nat, d: nat, m: nat) {
    m <= |SlotsAt(dk, ds, d)| && forall i :: 0 <= i < m ==> SlotsAt(dk, ds, d)[i].name != ""
  }

  lemma FullStep(dk: Disk, ds: nat, d: nat, k: nat)
    requires DirAt(dk, ds, d) && k < MAX_FILE_BLKS && FullBelow(dk, ds, d, k * NUM_DIRENTS_PER_BLOCK)
    requires IdAt(dk, ds, dk.itab[d], k) >= ds
    requires forall x :: 0 <= x < NUM_DIRENTS_PER_BLOCK ==> DentsAt(dk, IdAt(dk, ds, dk.itab[d], k))[x].name != ""
    ensures FullBelow(dk, ds, d, (k + 1) * NUM_DIRENTS_PER_BLOCK)
  {
    hide DirAt, SlotsAt, IdAt;
    assert d in dk.itab by { DirIn(dk, ds, d); }
    BlockWindow(dk, ds, d, k);
    var s := SlotsAt(dk, ds, d);
    var blk := DentsAt(dk, IdAt(dk, ds, dk.itab[d], k));
    forall i | 0 <= i < (k + 1) * NUM_DIRENTS_PER_BLOCK ensures s[i].name != "" {
      if i >= k * NUM_DIRENTS_PER_BLOCK {
        assert s[i] == blk[i - k * NUM_DIRENTS_PER_BLOCK];
      }
    }
  }

  lemma DirIn(dk: Disk, ds: nat, d: nat)
    requires DirAt(dk, ds, d)
    ensures d in dk.itab && dk.itab[d].kind == Dir
  {
  }

  /** A blank slot found in block k is the directory's first one, and filling it is the flat insertion. */
  lemma SlotFilled(dk: Disk, dk': Disk, ds: nat, nb: nat, next: nat, d: nat, k: nat, x: nat, de: Dentry)
    requires NodesOk(NodesOf(dk, ds), ds, nb) && Owned(NodesOf(dk, ds), ds, next)
    requires d in dk.itab && dk.itab[d].kind == Dir && k < MAX_FILE_BLKS && x < NUM_DIRENTS_PER_BLOCK
    requires FullBelow(dk, ds, d, k * NUM_DIRENTS_PER_BLOCK) && IdAt(dk, ds, dk.itab[d], k) >= ds
    requires var blk := DentsAt(dk, IdAt(dk, ds, dk.itab[d], k));
             blk[x].name == "" && forall y :: 0 <= y < x ==> blk[y].name != ""
    requires var b := IdAt(dk, ds, dk.itab[d], k);
             dk' == dk.(data := dk.data[b := PutRecord(DataAt(dk, b), x, de)],
             itab := dk.itab[d := dk.itab[d].(links := dk.itab[d].links + 1)])
    requires Storable(de)
    ensures var n := NodesOf(dk, ds)[d];
            && FirstEmpty(n.slots) < |n.slots|
            && NodesOf(dk', ds) == NodesOf(dk, ds)[d := WithEntry(n, de)]
  {
    hide IdAt, NodesOk, Owned, DirAt, NodeOf, DirOk, PutRecord, SlotsIn;
    DirFacts(dk, ds, nb, d);
    BlockWindow(dk, ds, d, k);
    var nodes := NodesOf(dk, ds);
    var s := nodes[d].slots;
    assert s == SlotsAt(dk, ds, d);
    var blk := DentsAt(dk, IdAt(dk, ds, dk.itab[d], k));
    var e := k * NUM_DIRENTS_PER_BLOCK + x;
    assert s[e] == blk[x];
    forall i | 0 <= i < e ensures s[i].name != "" {
      if i >= k * NUM_DIRENTS_PER_BLOCK {
        assert s[i] == blk[i - k * NUM_DIRENTS_PER_BLOCK];
      }
    }
    assert FirstEmpty(s) == e;
    SlotWritten(dk, dk', ds, next, d, k, x, de, dk.itab[d].links + 1);
  }

  lemma DirFacts(dk: Disk, ds: nat, nb: nat, d: nat)
    requires NodesOk(NodesOf(dk, ds), ds, nb) && d in dk.itab && dk.itab[d].kind == Dir
    ensures DirAt(dk, ds, d) && DirOk(NodesOf(dk, ds)[d], ds)
  {
    assert d in NodesOf(dk, ds);
  }

  /** A new block appended to a full directory is the flat insertion. */
  lemma BlockAppended(dk: Disk, dk': Disk, ds: nat, nb: nat, next: nat, d: nat, k: nat, de: Dentry)
    requires NodesOk(NodesOf(dk, ds), ds, nb) && Owned(NodesOf(dk, ds), ds, next) && ds <= next && Storable(de)
    requires d in dk.itab && dk.itab[d].kind == Dir && k < MAX_FILE_BLKS
    requires FullBelow(dk, ds, d, k * NUM_DIRENTS_PER_BLOCK) && IdAt(dk, ds, dk.itab[d], k) < ds
    requires Leading(OwnOf(dk, ds, dk.itab[d]), ds, 0) == k ==> Grown(dk, dk', ds, next, d, de, dk.itab[d].links + 1)
    ensures var n := NodesOf(dk, ds)[d];
            && FirstEmpty(n.slots) == |n.slots| == k * NUM_DIRENTS_PER_BLOCK
            && NodesOf(dk', ds) == NodesOf(dk, ds)[d := WithEntry(n, de).(own := GrowOwn(n.own, k, next))]
  {
    hide IdAt, NodesOk, Owned, DirAt, NodeOf, DirOk, Grown, GrowOwn, NewRaw, SlotsIn;
    DirFacts(dk, ds, nb, d);
    BlockWindow(dk, ds, d, k);
    var n := NodesOf(dk, ds)[d];
    assert n.slots == SlotsAt(dk, ds, d);
    DirLeading(n, ds);
    assert |n.slots| == k * NUM_DIRENTS_PER_BLOCK;
    assert FirstEmpty(n.slots) == |n.slots|;
    GrowWritten(dk, dk', ds, next, d, de, dk.itab[d].links + 1);
  }


  /** The indirect block is there exactly when its first entry is. */
  lemma IndirectListed(dk: Disk, ds: nat, nb: nat, d: nat)
    requires NodesOk(NodesOf(dk, ds), ds, nb) && d in dk.itab && dk.itab[d].kind == Dir
    ensures dk.itab[d].blks[NUM_DIRECT_BLOCKS] >= ds ==> IdsAt(dk, dk.itab[d].blks[NUM_DIRECT_BLOCKS])[0] >= ds
  {
    hide NodesOk, NodeOf;
    DirFacts(dk, ds, nb, d);
    var n := NodesOf(dk, ds)[d];
    assert n.own[IND] == dk.itab[d].blks[NUM_DIRECT_BLOCKS];
    assert n.own[NUM_DIRECT_BLOCKS] == IdAt(dk, ds, dk.itab[d], NUM_DIRECT_BLOCKS);
  }

  lemma ListOnDevice(dk: Disk, ds: nat, nb: nat, d: nat)
    requires NodesOk(NodesOf(dk, ds), ds, nb) && d in dk.itab && dk.itab[d].kind == Dir
    ensures dk.itab[d].blks[NUM_DIRECT_BLOCKS] >= ds ==> dk.itab[d].blks[NUM_DIRECT_BLOCKS] < nb
  {
    var n := NodesOf(dk, ds)[d];
    assert n.own[IND] == dk.itab[d].blks[NUM_DIRECT_BLOCKS];
  }

  lemma ListGrown(dk: Disk, dk': Disk, ds: nat, next: nat, d: nat, k: nat, de: Dentry)
    requires d in dk.itab && dk.itab[d].kind == Dir && NUM_DIRECT_BLOCKS <= k < MAX_FILE_BLKS && d in dk'.itab
    requires dk.itab[d].blks[NUM_DIRECT_BLOCKS] >= ds ==> k > NUM_DIRECT_BLOCKS
    requires dk.itab[d].blks[NUM_DIRECT_BLOCKS] < ds ==> k == NUM_DIRECT_BLOCKS
    requires var n, n' := dk.itab[d], dk'.itab[d];
             && n'.kind == Dir && n'.refs == n.refs && n'.links == n.links + 1 && n'.size == n.size
             && dk'.itab == dk.itab[d := n']
             && dk'.data == dk.data[(if k == NUM_DIRECT_BLOCKS then next + 1 else next) := NewRaw(de)]
             && n'.blks[NUM_DIRECT_BLOCKS] == (if k == NUM_DIRECT_BLOCKS then next else n.blks[NUM_DIRECT_BLOCKS])
             && (forall b: nat :: b != n'.blks[NUM_DIRECT_BLOCKS] ==> IdsAt(dk', b) == IdsAt(dk, b))
             && OwnOf(dk', ds, n') == GrowOwn(OwnOf(dk, ds, n), k, next)
    ensures Leading(OwnOf(dk, ds, dk.itab[d]), ds, 0) == k ==> Grown(dk, dk', ds, next, d, de, dk.itab[d].links + 1)
  {
    hide OwnOf, NewRaw, Leading, IdsAt;
    var own, own' := OwnOf(dk, ds, dk.itab[d]), OwnOf(dk', ds, dk'.itab[d]);
    assert own'[k] == if k == NUM_DIRECT_BLOCKS then next + 1 else next;
    assert own'[IND] == dk'.itab[d].blks[NUM_DIRECT_BLOCKS];
  }

  lemma NameTooLong(v: Volume, d: nat, name: PlainPath, ino: nat)
    requires d in v.nodes && |name| + 1 > MAX_FILE_NAME_LEN
    ensures AddDentry(v, d, name, ino).Fatal?
  {
  }

  /** A full directory that cannot be given the block it needs. */
  lemma AddFails(v: Volume, dk: Disk, d: nat, k: nat, name: PlainPath, ino: nat)
    requires Shaped(v) && v.nodes == NodesOf(dk, v.ds)
    requires d in dk.itab && dk.itab[d].kind == Dir && k <= MAX_FILE_BLKS
    requires FullBelow(dk, v.ds, d, k * NUM_DIRENTS_PER_BLOCK)
    requires k < MAX_FILE_BLKS ==> IdAt(dk, v.ds, dk.itab[d], k) < v.ds
    requires k == MAX_FILE_BLKS || v.free < Need(k) || v.next + Need(k) > v.nb || |name| + 1 > MAX_FILE_NAME_LEN
    ensures AddDentry(v, d, name, ino).Fatal?
    ensures k < NUM_DIRECT_BLOCKS ==> dk.itab[d].blks[NUM_DIRECT_BLOCKS] < v.ds
  {
    hide NodesOk, Owned, NodeOf, Insert, FullBelow, SlotsAt;
    DirFacts(dk, v.ds, v.nb, d);
    NodesIs(dk, v.ds, d);
    var n := NodesOf(dk, v.ds)[d];
    assert k < MAX_FILE_BLKS ==> n.own[k] == IdAt(dk, v.ds, dk.itab[d], k);
    assert n.own[IND] == dk.itab[d].blks[NUM_DIRECT_BLOCKS];
    FullAll(dk, v.ds, d, k * NUM_DIRENTS_PER_BLOCK);
  }

  lemma AddFilled(v: Volume, dk: Disk, dk': Disk, d: nat, k: nat, x: nat, name: PlainPath, ino: nat)
    requires Shaped(v) && v.nodes == NodesOf(dk, v.ds) && Storable(Dentry(name, ino))
    requires d in dk.itab && dk.itab[d].kind == Dir && k < MAX_FILE_BLKS && x < NUM_DIRENTS_PER_BLOCK
    requires FullBelow(dk, v.ds, d, k * NUM_DIRENTS_PER_BLOCK) && IdAt(dk, v.ds, dk.itab[d], k) >= v.ds
    requires var blk := DentsAt(dk, IdAt(dk, v.ds, dk.itab[d], k));
             blk[x].name == "" && forall y :: 0 <= y < x ==> blk[y].name != ""
    requires var b := IdAt(dk, v.ds, dk.itab[d], k);
             dk' == dk.(data := dk.data[b := PutRecord(DataAt(dk, b), x, Dentry(name, ino))],
             itab := dk.itab[d := dk.itab[d].(links := dk.itab[d].links + 1)])
    ensures AddDentry(v, d, name, ino) == Ok(v.(nodes := NodesOf(dk', v.ds)), ())
  {
    hide IdAt, NodesOk, Owned, NodeOf, WithEntry, FullBelow, PutRecord, SlotsIn;
    SlotFilled(dk, dk', v.ds, v.nb, v.next, d, k, x, Dentry(name, ino));
  }

  lemma AddGrown(v: Volume, dk: Disk, dk': Disk, d: nat, k: nat, name: PlainPath, ino: nat)
    requires Shaped(v) && v.nodes == NodesOf(dk, v.ds) && Storable(Dentry(name, ino))
    requires d in dk.itab && dk.itab[d].kind == Dir && k < MAX_FILE_BLKS
    requires FullBelow(dk, v.ds, d, k * NUM_DIRENTS_PER_BLOCK) && IdAt(dk, v.ds, dk.itab[d], k) < v.ds
    requires Leading(OwnOf(dk, v.ds, dk.itab[d]), v.ds, 0) == k ==>
               Grown(dk, dk', v.ds, v.next, d, Dentry(name, ino), dk.itab[d].links + 1)
    ensures AddDentry(v, d, name, ino) ==
            if v.free < Need(k) || v.next + Need(k) > v.nb then Fatal
            else Ok(v.(free := v.free - Need(k), next := v.next + Need(k), nodes := NodesOf(dk', v.ds)), ())
  {
    hide IdAt, NodesOk, Owned, NodeOf, WithEntry, FullBelow, Grown, GrowOwn, Leading, OwnOf, SlotsIn;
    BlockAppended(dk, dk', v.ds, v.nb, v.next, d, k, Dentry(name, ino));
  }

  lemma NodesIs(dk: Disk, ds: nat, d: nat)
    requires d in dk.itab
    ensures d in NodesOf(dk, ds) && NodesOf(dk, ds)[d].slots == SlotsAt(dk, ds, d)
    ensures NodesOf(dk, ds)[d].links == dk.itab[d].links
    ensures NodesOf(dk, ds)[d].own == OwnOf(dk, ds, dk.itab[d])
  {
  }

  lemma FullNone(dk: Disk, ds: nat, d: nat)
    ensures FullBelow(dk, ds, d, 0)
  {
  }

  lemma FullAll(dk: Disk, ds: nat, d: nat, m: nat)
    requires FullBelow(dk, ds, d, m) && m >= |SlotsAt(dk, ds, d)|
    ensures FirstEmpty(SlotsAt(dk, ds, d)) == |SlotsAt(dk, ds, d)| == m
  {
  }

  lemma DirectGrown(dk: Disk, dk': Disk, ds: nat, b: nat, d: nat, k: nat, de: Dentry)
    requires d in dk.itab && dk.itab[d].kind == Dir && k < NUM_DIRECT_BLOCKS
    requires var n := dk.itab[d];
             && var n' := n.(blks := n.blks[k := b], links := n.links + 1);
             && dk' == dk.(itab := dk.itab[d := n'], data := dk.data[b := NewRaw(de)])
             && OwnOf(dk', ds, n') == GrowOwn(OwnOf(dk, ds, n), k, b)
    ensures Leading(OwnOf(dk, ds, dk.itab[d]), ds, 0) == k ==> Grown(dk, dk', ds, b, d, de, dk.itab[d].links + 1)
  {
    hide OwnOf, NewRaw;
  }

  /** Adding a dentry keeps the block ids in order. */
  lemma AddOwned(v: Volume, d: nat, name: PlainPath, ino: nat)
    requires Shaped(v) && d in v.nodes && v.nodes[d].kind == Dir && AddDentry(v, d, name, ino).Ok?
    ensures var w := AddDentry(v, d, name, ino).vol; v.next <= w.next && Owned(w.nodes, v.ds, w.next)
  {
    var w := AddDentry(v, d, name, ino).vol;
    var n, m := v.nodes[d], w.nodes[d];
    OldIds(v, d);
    if FirstEmpty(n.slots) == |n.slots| {
      GrowDir(v, d, |n.slots| / NUM_DIRENTS_PER_BLOCK, m.own);
    }
    OwnedUpdate(v.nodes, v.ds, v.next, w.next, d, m);
  }

  /** Overwriting the dentry at the place where a lookup found it. */
  lemma SlotSet(v: Volume, dk: Disk, dk': Disk, d: nat, j: nat, blk: nat, idx: nat, de: Dentry)
    requires Shaped(v) && v.nodes == NodesOf(dk, v.ds)
    requires d in dk.itab && dk.itab[d].kind == Dir && j < |v.nodes[d].slots|
    requires PlacedAt(dk, v.ds, d, j, blk, idx) && Storable(de)
    requires dk' == dk.(data := dk.data[blk := PutRecord(DataAt(dk, blk), idx, de)])
    ensures SetSlot(v, d, j, de) == v.(nodes := NodesOf(dk', v.ds))
  {
    hide NodesOk, Owned, NodeOf, DirOk, IdAt, PutRecord, SlotsIn;
    DirFacts(dk, v.ds, v.nb, d);
    NodesIs(dk, v.ds, d);
    var k := j / NUM_DIRENTS_PER_BLOCK;
    assert k * NUM_DIRENTS_PER_BLOCK + idx == j && idx < NUM_DIRENTS_PER_BLOCK;
    assert blk == v.nodes[d].own[k];
    hide PlacedAt;
    assert dk' == dk'.(itab := dk.itab[d := dk.itab[d].(links := dk.itab[d].links)]) by {
      assert dk.itab == dk.itab[d := dk.itab[d]];
    }
    SlotWritten(dk, dk', v.ds, v.next, d, k, idx, de, dk.itab[d].links);
  }

  /** Giving the inode i back: the table entry is gone, every block stays as it is. */
  lemma NodeFreed(dk: Disk, dk': Disk, ds: nat, i: nat)
    requires dk'.itab == dk.itab - {i} && dk'.ids == dk.ids && dk'.data == dk.data
    ensures NodesOf(dk', ds) == NodesOf(dk, ds) - {i}
  {
    hide NodeOf;
    forall j | j in dk'.itab ensures NodeOf(dk', ds, dk'.itab[j]) == NodeOf(dk, ds, dk.itab[j]) {
      NodeFrame(dk, dk', ds, dk.itab[j]);
    }
  }

  /** The bitmap is no part of any file. */
  lemma BitmapOnly(dk: Disk, bits: Bits, ds: nat)
    ensures NodesOf(dk.(bitmap := bits), ds) == NodesOf(dk, ds)
  {
    hide NodeOf;
    forall j | j in dk.itab ensures NodeOf(dk.(bitmap := bits), ds, dk.itab[j]) == NodeOf(dk, ds, dk.itab[j]) {
      NodeFrame(dk, dk.(bitmap := bits), ds, dk.itab[j]);
    }
  }

  lemma FreedShaped(v: Volume, w: Volume, i: nat)
    requires Shaped(v) && i != ROOT_INO && w.nodes == v.nodes - {i} && w.ds == v.ds && w.nb == v.nb && w.next == v.next
    ensures Shaped(w)
  {
    forall b: nat, j: nat, k: nat | Holds(w.nodes, b, j, k) ensures Holds(v.nodes, b, j, k) {
    }
  }

  lemma SoundShaped(v: Volume)
    requires Sound(v)
    ensures Shaped(v) && v.ds < v.nb && v.free <= v.nb - v.ds
  {
  }

  /** The disk with inode i written back, its counts moved. */
  function Recounted(dk: Disk, i: nat, refs: int, links: int): Disk
    requires i in dk.itab
  {
    dk.(itab := dk.itab[i := dk.itab[i].(refs := dk.itab[i].refs + refs, links := dk.itab[i].links + links)])
  }

  lemma LinkDropped(v: Volume, dk: Disk, up: nat)
    requires v.nodes == NodesOf(dk, v.ds) && up in dk.itab
    ensures var dk' := Recounted(dk, up, 0, -1);
            dk'.bitmap == dk.bitmap && DropLink(v, up) == v.(nodes := NodesOf(dk', v.ds))
  {
    hide NodeOf;
    CountsWritten(dk, Recounted(dk, up, 0, -1), v.ds, up, dk.itab[up].refs, dk.itab[up].links - 1);
  }

  lemma RefsChanged(v: Volume, dk: Disk, i: nat, delta: int)
    requires v.nodes == NodesOf(dk, v.ds) && i in dk.itab
    ensures var dk' := Recounted(dk, i, delta, 0);
            dk'.bitmap == dk.bitmap && AddRefs(v, i, delta) == v.(nodes := NodesOf(dk', v.ds))
  {
    hide NodeOf;
    CountsWritten(dk, Recounted(dk, i, delta, 0), v.ds, i, dk.itab[i].refs + delta, dk.itab[i].links);
  }

  /** The entry a lookup found in a sound volume: its directory and place are known. */
  lemma FoundPlace(v: Volume, dk: Disk, p: Path, l: Look, r: Probe)
    requires Sound(v) && v.nodes == NodesOf(dk, v.ds)
    requires p != "/" && l == GetDe(v.nodes, p) && l.Found? && Reports(dk, v.ds, l, r)
    ensures l.dir in dk.itab && dk.itab[l.dir].kind == Dir && l.dir != l.ino && l.slot < |v.nodes[l.dir].slots|
    ensures l.ino in dk.itab && l.ino == r.ino
    ensures PlacedAt(dk, v.ds, l.dir, l.slot, r.blk, r.idx)
  {
    hide Marked, Counted, Owned, Walk, OnDevice;
    FoundEntry(v.nodes, v.ds, v.nb, p);
    assert NodeOk(v.nodes[l.dir], v.ds);
  }

  lemma SourcePlace(v: Volume, dk: Disk, p: Path, l: Look, r: Probe)
    requires Sound(v) && v.nodes == NodesOf(dk, v.ds) && l == GetDe(v.nodes, p) && l.Found? && Reports(dk, v.ds, l, r)
    requires r.ino in dk.itab && dk.itab[r.ino].kind == Reg
    ensures l.dir in dk.itab && dk.itab[l.dir].kind == Dir && l.slot < |v.nodes[l.dir].slots|
    ensures l.ino == r.ino && PlacedAt(dk, v.ds, l.dir, l.slot, r.blk, r.idx)
  {
    hide Sound, NodesOf, GetDe, PlacedAt;
    NodeHere(dk, v.ds, r.ino);
    NotTheRoot(v, p);
    FoundPlace(v, dk, p, l, r);
  }

  /** Freeing another inode leaves a dentry where it was. */
  lemma PlaceKept(dk: Disk, dk': Disk, ds: nat, i: nat, d: nat, j: nat, blk: nat, idx: nat)
    requires PlacedAt(dk, ds, d, j, blk, idx) && d != i && dk'.itab == dk.itab - {i} && dk'.ids == dk.ids
    ensures PlacedAt(dk', ds, d, j, blk, idx)
  {
  }

  lemma DeallocKeeps(v: Volume, p: Path, l: Look)
    requires l == GetDe(v.nodes, p) && l.Found? && l.ino in v.nodes && DeallocIno(v, l.ino).Ok?
    ensures p != "/" && l.ino != ROOT_INO
    ensures var w := DeallocIno(v, l.ino).vol;
            w.nodes == v.nodes - {l.ino} && w.ds == v.ds && w.nb == v.nb && w.next == v.next
  {
  }

  lemma NodeHere(dk: Disk, ds: nat, i: nat)
    ensures i in NodesOf(dk, ds) <==> i in dk.itab
    ensures i in dk.itab ==> && NodesOf(dk, ds)[i].kind == dk.itab[i].kind && NodesOf(dk, ds)[i].refs == dk.itab[i].refs
                             && NodesOf(dk, ds)[i].links == dk.itab[i].links
  {
  }

  /** Data blocks below next that directory d does not hold are as they were, and so are the other inodes. */
  ghost predicate Untouched(dk: Disk, dk': Disk, ds: nat, d: nat, next: nat)
    requires d in dk.itab
  {
    && d in dk'.itab && dk'.itab == dk.itab[d := dk'.itab[d]]
    && forall b: nat :: b < next && b !in OwnOf(dk, ds, dk.itab[d]) ==> DataAt(dk', b) == DataAt(dk, b)
  }

  lemma UntouchedBy(dk: Disk, dk': Disk, ds: nat, d: nat, next: nat, b: nat, blk: DataBlk)
    requires d in dk.itab && d in dk'.itab && dk'.itab == dk.itab[d := dk'.itab[d]]
    requires dk'.data == dk.data[b := blk]
    requires b >= next || exists k: nat :: k < MAX_FILE_BLKS && IdAt(dk, ds, dk.itab[d], k) == b
    ensures Untouched(dk, dk', ds, d, next)
  {
    if k: nat :| k < MAX_FILE_BLKS && IdAt(dk, ds, dk.itab[d], k) == b {
      assert OwnOf(dk, ds, dk.itab[d])[k] == b;
    }
  }

  /** The disk with the record of de in slot x of block b, and one more link for directory d. */
  function FilledDisk(dk: Disk, d: nat, b: nat, x: nat, de: Dentry): Disk
    requires d in dk.itab
  {
    dk.(data := dk.data[b := PutRecord(DataAt(dk, b), x, de)],
    itab := dk.itab[d := dk.itab[d].(links := dk.itab[d].links + 1)])
  }

  /** The disk with de in the new block b, direct block number k of directory d. */
  function AppendedDisk(dk: Disk, d: nat, k: nat, b: nat, de: Dentry): Disk
    requires d in dk.itab && k < NUM_DIRECT_BLOCKS
  {
    var n := dk.itab[d];
    dk.(itab := dk.itab[d := n.(blks := n.blks[k := b], links := n.links + 1)], data := dk.data[b := NewRaw(de)])
  }

  lemma AppendStarts(v: Volume, dk: Disk, d: nat, k: nat)
    requires Shaped(v) && d in dk.itab && k < NUM_DIRECT_BLOCKS
    ensures 0 < v.ds < v.next && IdAt(dk, v.ds, dk.itab[d], k) == dk.itab[d].blks[k]
  {
  }

  /** A blank slot given to a name. */
  lemma SlotGiven(v: Volume, dk: Disk, d: nat, k: nat, b: nat, x: nat, name: PlainPath, ino: nat)
    requires Shaped(v) && v.nodes == NodesOf(dk, v.ds) && Storable(Dentry(name, ino))
    requires d in dk.itab && dk.itab[d].kind == Dir && k < MAX_FILE_BLKS && x < NUM_DIRENTS_PER_BLOCK
    requires FullBelow(dk, v.ds, d, k * NUM_DIRENTS_PER_BLOCK) && b >= v.ds && b == IdAt(dk, v.ds, dk.itab[d], k)
    requires DentsAt(dk, b)[x].name == "" && forall y :: 0 <= y < x ==> DentsAt(dk, b)[y].name != ""
    ensures var dk' := FilledDisk(dk, d, b, x, Dentry(name, ino));
            && dk'.bitmap == dk.bitmap && Untouched(dk, dk', v.ds, d, v.next)
            && AddDentry(v, d, name, ino) == Ok(v.(nodes := NodesOf(dk', v.ds)), ())
  {
    hide FullBelow, NodesOf, AddDentry, Untouched, DentsAt, IdAt, PutRecord, Shaped;
    var dk' := FilledDisk(dk, d, b, x, Dentry(name, ino));
    AddFilled(v, dk, dk', d, k, x, name, ino);
    UntouchedBy(dk, dk', v.ds, d, v.next, b, PutRecord(DataAt(dk, b), x, Dentry(name, ino)));
  }

  /** A new direct block with one name in it. */
  lemma DirectGiven(v: Volume, dk: Disk, d: nat, k: nat, name: PlainPath, ino: nat)
    requires Shaped(v) && v.nodes == NodesOf(dk, v.ds) && v.free >= 1 && v.next < v.nb && Storable(Dentry(name, ino))
    requires d in dk.itab && dk.itab[d].kind == Dir && k < NUM_DIRECT_BLOCKS && dk.itab[d].blks[k] < v.ds
    requires FullBelow(dk, v.ds, d, k * NUM_DIRENTS_PER_BLOCK)
    ensures var dk' := AppendedDisk(dk, d, k, v.next, Dentry(name, ino));
            && dk'.bitmap == dk.bitmap && Untouched(dk, dk', v.ds, d, v.next)
            && AddDentry(v, d, name, ino) ==
               Ok(v.(free := v.free - 1, next := v.next + 1, nodes := NodesOf(dk', v.ds)), ())
  {
    hide FullBelow, NodesOf, AddDentry, Untouched, Shaped, Grown, GrowOwn, OwnOf, Leading, NewRaw;
    var n := dk.itab[d];
    var dk' := AppendedDisk(dk, d, k, v.next, Dentry(name, ino));
    GrowDirect(dk, dk', v.ds, n, k, v.next, n.links + 1);
    DirectGrown(dk, dk', v.ds, v.next, d, k, Dentry(name, ino));
    AddGrown(v, dk, dk', d, k, name, ino);
    UntouchedBy(dk, dk', v.ds, d, v.next, v.next, NewRaw(Dentry(name, ino)));
  }

  /** A new inode whose blocks nobody else holds. */
  lemma InodeAdded(dk: Disk, dk': Disk, ds: nat, next: nat, i: nat)
    requires Owned(NodesOf(dk, ds), ds, next) && ds <= next && i in dk'.itab && dk'.itab == dk.itab[i := dk'.itab[i]]
    requires dk'.data == dk.data
    requires forall b: nat :: b < next ==> IdsAt(dk', b) == IdsAt(dk, b)
    ensures NodesOf(dk', ds) == NodesOf(dk, ds)[i := NodeOf(dk', ds, dk'.itab[i])]
  {
    hide NodeOf, Owned;
    NodesUpdate(dk, dk', ds, next, i);
  }

  /** The blocks prealloc_blks gives a new file, as its inode and indirect block list them. */
  lemma PreallocView(dk: Disk, ds: nat, next: nat, blks: Blks)
    requires ds <= next
    requires forall k :: 0 <= k <= NUM_DIRECT_BLOCKS ==> blks[k] == next + k
    requires IdsAt(dk, next + NUM_DIRECT_BLOCKS) == seq(NUM_BLKS_PER_IB, x => next + NUM_DIRECT_BLOCKS + 1 + x)
    ensures NodeOf(dk, ds, Inode(Reg, 1, 0, 0, blks)) == Node(Reg, 1, 0, [], [], PreallocOwn(next), 0)
  {
    assert OwnOf(dk, ds, Inode(Reg, 1, 0, 0, blks)) == PreallocOwn(next);
  }

  /** A new directory with its one block. */
  lemma NewDirView(dk: Disk, ds: nat, b: nat, blks: Blks, self: nat, parent: nat)
    requires 1 <= ds <= b && DataAt(dk, b) == DotRaw(self, parent) && self < U64 && parent < U64
    requires blks[0] == b && forall k :: 0 < k <= NUM_DIRECT_BLOCKS ==> blks[k] == 0
    ensures NodeOf(dk, ds, Inode(Dir, 0, 2, 0, blks)) == DotDir(0, self, parent, b)
  {
    hide DotRaw, SlotsIn;
    var own := OwnOf(dk, ds, Inode(Dir, 0, 2, 0, blks));
    assert own == FirstOwn(b);
    assert Leading(own, ds, 0) == 1;
    DotsRead(self, parent);
    assert SlotsOf(dk, own, 1) == DotSlots(self, parent);
    assert BytesOf(dk, own, BLK_SZ) == DotRaw(self, parent);
  }

  /** Writing a block nobody holds yet. */
  lemma FreshBlock(dk: Disk, dk': Disk, ds: nat, next: nat, blk: DataBlk)
    requires Owned(NodesOf(dk, ds), ds, next) && ds <= next && dk' == dk.(data := dk.data[next := blk])
    ensures NodesOf(dk', ds) == NodesOf(dk, ds)
  {
    hide NodeOf;
    forall j | j in dk.itab ensures NodeOf(dk', ds, dk.itab[j]) == NodeOf(dk, ds, dk.itab[j]) {
      forall k: nat | k < MAX_FILE_BLKS ensures IdAt(dk, ds, dk.itab[j], k) != next {
        assert Holds(NodesOf(dk, ds), IdAt(dk, ds, dk.itab[j], k), j, k);
      }
      NodeFrame(dk, dk', ds, dk.itab[j]);
    }
  }

  lemma ShapedOk(v: Volume)
    requires Shaped(v)
    ensures NodesOk(v.nodes, v.ds, v.nb)
  {
  }

  lemma NotTheRoot(v: Volume, p: Path)
    requires Sound(v) && GetDe(v.nodes, p).Found? && GetDe(v.nodes, p).ino in v.nodes
    requires v.nodes[GetDe(v.nodes, p).ino].kind == Reg
    ensures p != "/"
  {
  }

  lemma NextShaped(v: Volume, w: Volume)
    requires Shaped(v) && w.nodes == v.nodes && w.ds == v.ds && w.nb == v.nb && v.next <= w.next
    ensures Shaped(w)
  {
  }

  /** A block just written and not held by directory d survives an addition to d. */
  lemma OwnBlockKept(v: Volume, dk: Disk, dk': Disk, ds: nat, d: nat, b: nat)
    requires Shaped(v) && v.ds == ds && v.next == b && v.nodes == NodesOf(dk, ds)
    requires d in dk.itab && Untouched(dk, dk', ds, d, b + 1)
    ensures DataAt(dk', b) == DataAt(dk, b)
  {
    hide NodesOk;
    NodesIs(dk, ds, d);
    OldIds(v, d);
  }

  /** A listing has as many entries as the directory's link count says. */
  lemma ListedOnce(v: Volume, d: nat)
    requires Sound(v) && d in v.nodes && v.nodes[d].kind == Dir
    ensures |Entries(v.nodes[d].slots, |v.nodes[d].slots|)| == v.nodes[d].links
  {
    EntriesCount(v.nodes[d].slots, |v.nodes[d].slots|);
  }

  /** The data blocks an inode of a sound volume has: all of them, or those that hold its dentries. */
  function BlocksHeld(n: Node): nat {
    if n.kind == Reg then MAX_FILE_BLKS else BlocksOf(n)
  }

  /** The work a write starts from. */
  lemma FileShape(v: Volume, dk: Disk, i: nat, s: FileIo.Work)
    requires Sound(v) && v.nodes == NodesOf(dk, v.ds) && i in dk.itab
    requires s == FileIo.Work(dk, v.free, v.next, dk.itab[i])
    ensures var n := v.nodes[i];
            var c := BlocksHeld(n);
            && n.kind == s.n.kind && FileIo.Shape(s, v.ds, c) && s.n.size <= c * BLK_SZ && c <= MAX_FILE_BLKS
            && n.own == FileIo.Ids(s, v.ds) && OnDevice(n, v.ds, v.nb)
            && (n.kind == Reg ==> RegOk(n, v.ds) && n.bytes == FileIo.Bytes(s, v.ds) && |n.bytes| == s.n.size)
            && (n.kind == Dir ==> && DirOk(n, v.ds) && s.n.size == n.dirSize <= MAX_FILE_BYTES
                                  && n.bytes == BytesOf(dk, n.own, c * BLK_SZ))
  {
    hide Sound, SlotsIn, OwnOf, Mapped, Apart, OnDevice, DirOk;
    NodeIs(dk, v.ds, i);
    if dk.itab[i].kind == Reg {
      RegShape(v, i);
    } else {
      DirShape(v, i);
      DirLeading(v.nodes[i], v.ds);
      SizeHeld(v.nodes[i], v.ds);
    }
  }

  lemma SizeHeld(n: Node, ds: nat)
    requires DirOk(n, ds)
    ensures n.dirSize <= |n.bytes|
  {
  }

  lemma WriteTouches(v: Volume, dk: Disk, dk': Disk, i: nat, s: FileIo.Work, t: FileIo.Work)
    requires v.nodes == NodesOf(dk, v.ds) && i in dk.itab && s == FileIo.Work(dk, v.free, v.next, dk.itab[i])
    requires FileIo.Kept(s, t, v.ds) && dk'.ids == t.dk.ids && dk'.data == t.dk.data
    ensures OnlyTouches(dk, dk', v.ds, v.next, i)
  {
    hide SlotsIn;
    var own := FileIo.Ids(s, v.ds);
    NodesIs(dk, v.ds, i);
    hide NodesOf, OwnOf, DataAt, IdsAt;
    forall b: nat | b < v.ds || (b < v.next && !HeldBy(v.nodes, b, i)) ensures SameBlock(dk, dk', b) {
      if b in own {
        var k: nat :| k < OWN_LEN && own[k] == b;
        assert Holds(v.nodes, b, i, k);
        assert HeldBy(v.nodes, b, i);
      }
      assert SameBlock(s.dk, t.dk, b);
    }
  }

  /** A write confined to the file's own blocks changes the bytes of that file and nothing else. */
  lemma FileWritten(v: Volume, dk: Disk, dk': Disk, i: nat, s: FileIo.Work, t: FileIo.Work, n': Inode)
    requires Shaped(v) && v.nodes == NodesOf(dk, v.ds) && i in dk.itab
    requires s == FileIo.Work(dk, v.free, v.next, dk.itab[i]) && FileIo.Kept(s, t, v.ds)
    requires dk' == t.dk.(itab := dk.itab[i := n'])
    ensures NodesOf(dk', v.ds) == v.nodes[i := NodeOf(dk', v.ds, n')]
  {
    hide NodesOk, Owned, NodeOf;
    WriteTouches(v, dk, dk', i, s, t);
    NodesUpdate(dk, dk', v.ds, v.next, i);
  }

  lemma RegView(dk: Disk, dk': Disk, ds: nat, s: FileIo.Work, t: FileIo.Work)
    requires s.dk == dk && s.n.kind == Reg && t.n == s.n.(size := t.n.size) && FileIo.Ids(t, ds) == FileIo.Ids(s, ds)
    requires dk'.ids == t.dk.ids && dk'.data == t.dk.data
    ensures NodeOf(dk', ds, t.n) == NodeOf(dk, ds, s.n).(bytes := FileIo.Bytes(t, ds))
  {
    var own := FileIo.Ids(s, ds);
    assert OwnOf(dk', ds, t.n) == own;
    assert BytesOf(dk', own, t.n.size) == BytesOf(t.dk, own, t.n.size);
  }

  lemma ShapeMapped(s: FileIo.Work, ds: nat, c: nat)
    requires FileIo.Shape(s, ds, c)
    ensures ds > 0 && Mapped(OwnOf(s.dk, ds, s.n), ds, c)
  {
  }

  /** The block an empty write at off would start in is on a device already. */
  lemma EmptyReaches(v: Volume, i: nat, off: nat)
    requires i in v.nodes && v.nodes[i].kind == Reg && OnDevice(v.nodes[i], v.ds, v.nb)
    ensures var m := Min(off, |v.nodes[i].bytes|); Reaches(v.nodes[i].own, v.nb, m, m)
  {
  }

  /** What the block loop does to a regular file is the flat write. */
  lemma RegWritten(v: Volume, dk: Disk, dk': Disk, i: nat, data: seq<Byte>, off: nat, s: FileIo.Work, t: FileIo.Work)
    requires Sound(v) && v.nodes == NodesOf(dk, v.ds) && i in dk.itab && dk.itab[i].kind == Reg
    requires s == FileIo.Work(dk, v.free, v.next, dk.itab[i])
    requires FileIo.Placed(s, t, v.ds, Min(off, s.n.size), Payload(s.n.size, off, data), MAX_FILE_BLKS, MAX_FILE_BLKS)
    requires var end, sp := off + |data|, Splice(FileIo.Bytes(s, v.ds), off, data);
             if end <= MAX_FILE_BYTES then FileIo.Bytes(t, v.ds) == sp
             else t.n.size == s.n.size && FileIo.Bytes(t, v.ds) == sp[..s.n.size]
    requires Affordable(FileIo.Ids(s, v.ds), v.free, v.next, v.nb, MAX_FILE_BLKS, Min(off, s.n.size), off + |data|)
    requires dk' == t.dk.(itab := dk.itab[i := if off + |data| <= MAX_FILE_BYTES then t.n else s.n])
    ensures t.free == v.free && t.next == v.next
    ensures var r := WriteReg(v, i, data, off); r.Ok? && r.vol == v.(nodes := NodesOf(dk', v.ds))
  {
    hide Sound, NodesOf, NodeOf, Splice, Reaches, Affordable, FileIo.Shape, FileIo.Kept, FileIo.Ids;
    hide FileIo.Bytes, GrowTo;
    SoundShaped(v);
    NodeIs(dk, v.ds, i);
    FileShape(v, dk, i, s);
    FileIo.FullAffordable(s, v.ds, v.nb, Min(off, s.n.size), off + |data|);
    EmptyReaches(v, i, off);
    NoGrowth(FileIo.Ids(s, v.ds), MAX_FILE_BLKS, v.next);
    RegView(dk, dk', v.ds, s, t);
    FileWritten(v, dk, dk', i, s, t, t.n);
  }

  lemma NodeIs(dk: Disk, ds: nat, i: nat)
    requires i in dk.itab
    ensures i in NodesOf(dk, ds) && NodesOf(dk, ds)[i] == NodeOf(dk, ds, dk.itab[i])
  {
  }

  lemma NoGrowth(own: Own, c: nat, next: nat)
    requires c <= MAX_FILE_BLKS
    ensures GrowTo(own, c, c, next) == own && Needed(c, c) == 0
  {
  }

  lemma LeadingMapped(own: Own, ds: nat, c: nat)
    requires Mapped(own, ds, c)
    ensures c <= MAX_FILE_BLKS && Leading(own, ds, 0) == c
  {
    var l := Leading(own, ds, 0);
    assert l < MAX_FILE_BLKS ==> own[l] < ds;
    assert c < MAX_FILE_BLKS ==> own[c] < ds;
    assert l > 0 ==> own[l - 1] >= ds;
  }

  /** The ids of a directory after a write, by the inode that is on disk. */
  lemma DirIds(dk': Disk, ds: nat, s: FileIo.Work, t: FileIo.Work, c: nat, c': nat, n': Inode)
    requires c <= c' <= MAX_FILE_BLKS && dk'.ids == t.dk.ids
    requires FileIo.Ids(t, ds) == GrowTo(FileIo.Ids(s, ds), c, c', s.next) && Mapped(FileIo.Ids(s, ds), ds, c)
    requires c > NUM_DIRECT_BLOCKS ==> t.n.blks == s.n.blks
    requires n'.blks == t.n.blks || n'.blks == s.n.blks
    ensures OwnOf(dk', ds, n') ==
            if c > NUM_DIRECT_BLOCKS || n'.blks == t.n.blks then GrowTo(FileIo.Ids(s, ds), c, c', s.next)
            else FileIo.Ids(s, ds)
  {
    hide GrowTo;
    if c > NUM_DIRECT_BLOCKS || n'.blks == t.n.blks {
      assert OwnOf(dk', ds, n') == OwnOf(t.dk, ds, t.n);
    } else {
      assert OwnOf(s.dk, ds, s.n)[IND] < ds;
      assert OwnOf(dk', ds, n') == OwnOf(s.dk, ds, s.n);
    }
  }

  /** The first m bytes are the same, by either list, when the lists agree that far. */
  lemma PrefixBytes(dk: Disk, own: Own, own': Own, c: nat, c': nat, raw: seq<Byte>, start: nat, w: seq<Byte>)
    requires c <= c' <= MAX_FILE_BLKS && forall k :: 0 <= k < c ==> own[k] == own'[k]
    requires BytesOf(dk, own', c' * BLK_SZ) == Overwrite(raw, start, w, c' * BLK_SZ)
    ensures BytesOf(dk, own, c * BLK_SZ) == Overwrite(raw, start, w, c * BLK_SZ)
  {
    hide DataAt;
    var a, b := BytesOf(dk, own, c * BLK_SZ), BytesOf(dk, own', c' * BLK_SZ);
    forall j: nat | j < c * BLK_SZ ensures a[j] == b[j] {
      assert j / BLK_SZ < c;
    }
  }

  lemma SameData(dk: Disk, dk': Disk, own: Own, m: nat)
    requires dk'.data == dk.data
    ensures BytesOf(dk', own, m) == BytesOf(dk, own, m)
  {
  }

  /** A directory whose blocks hold the bytes raw. */
  lemma RereadView(dk: Disk, ds: nat, n: Inode, own: Own, c: nat, raw: seq<Byte>)
    requires n.kind == Dir && OwnOf(dk, ds, n) == own && Mapped(own, ds, c) && BytesOf(dk, own, c * BLK_SZ) == raw
    ensures NodeOf(dk, ds, n) == Node(Dir, n.refs, n.links, SlotsIn(raw), raw, own, n.size)
  {
    hide SlotsIn, OwnOf;
    LeadingMapped(own, ds, c);
    SlotsRead(dk, own, c);
  }

  /** What the block loop leaves of a directory is what the flat write says. */
  lemma DirView(v: Volume, dk: Disk, dk': Disk, i: nat, data: seq<Byte>, off: nat, s: FileIo.Work, t: FileIo.Work,
                n': Inode)
    requires Sound(v) && v.nodes == NodesOf(dk, v.ds) && i in dk.itab && dk.itab[i].kind == Dir
    requires s == FileIo.Work(dk, v.free, v.next, dk.itab[i])
    requires var c := BlocksOf(v.nodes[i]);
             var c' := BlocksTo(c, off + |data|);
             && FileIo.Placed(s, t, v.ds, Min(off, s.n.size), Payload(s.n.size, off, data), c, c')
             && (off + |data| <= MAX_FILE_BYTES ==>
                   n' == t.n && n'.size == if c' > c || off + |data| > s.n.size then off + |data| else s.n.size)
             && (off + |data| > MAX_FILE_BYTES ==> n' == s.n)
    requires dk'.ids == t.dk.ids && dk'.data == t.dk.data
    ensures NodeOf(dk', v.ds, n') == DirWritten(v.nodes[i], v.next, data, off)
  {
    hide Sound, NodesOf, NodeOf, OwnOf, GrowTo, Overwrite, SlotsIn, BytesOf, FileIo.Kept, DirOk, OnDevice;
    hide Mapped, Apart, Covering, BlocksTo;
    var n, ds := v.nodes[i], v.ds;
    NodeIs(dk, ds, i);
    FileShape(v, dk, i, s);
    DirShape(v, i);
    var c := BlocksOf(n);
    var c' := BlocksTo(c, off + |data|);
    var stays := Staying(n, off + |data|);
    DirIds(dk', ds, s, t, c, c', n');
    GrowToShape(n.own, ds, c, c', v.next);
    GrowToShape(n.own, ds, c, stays, v.next);
    var own := GrowTo(n.own, c, stays, v.next);
    assert own == OwnOf(dk', ds, n') by { NoGrowth(n.own, c, v.next); }
    SameData(t.dk, dk', FileIo.Ids(t, ds), c' * BLK_SZ);
    PrefixBytes(dk', own, FileIo.Ids(t, ds), stays, c', n.bytes, Min(off, s.n.size), Payload(s.n.size, off, data));
    var raw := Overwrite(n.bytes, Min(off, s.n.size), Payload(s.n.size, off, data), stays * BLK_SZ);
    RereadView(dk', ds, n', own, stays, raw);
  }

  lemma DirWriteIs(v: Volume, dk: Disk, dk': Disk, i: nat, data: seq<Byte>, off: nat, s: FileIo.Work,
                   t: FileIo.Work, n': Inode)
    requires Sound(v) && v.nodes == NodesOf(dk, v.ds) && i in dk.itab && dk.itab[i].kind == Dir
    requires s == FileIo.Work(dk, v.free, v.next, dk.itab[i])
    requires var c := BlocksOf(v.nodes[i]);
             var c' := BlocksTo(c, off + |data|);
             && FileIo.Placed(s, t, v.ds, Min(off, s.n.size), Payload(s.n.size, off, data), c, c')
             && (off + |data| <= MAX_FILE_BYTES ==>
                   n' == t.n && n'.size == if c' > c || off + |data| > s.n.size then off + |data| else s.n.size)
             && (off + |data| > MAX_FILE_BYTES ==> n' == s.n)
    requires var c := BlocksOf(v.nodes[i]);
             Affordable(FileIo.Ids(s, v.ds), v.free, v.next, v.nb, c, Min(off, s.n.size), off + |data|)
    requires dk' == t.dk.(itab := dk.itab[i := n'])
    ensures var r := WriteDir(v, i, data, off);
            r.Ok? && r.vol == v.(free := t.free, next := t.next, nodes := NodesOf(dk', v.ds))
  {
    hide Sound, NodesOf, NodeOf, DirWritten, Affordable, FileIo.Ids, FileIo.Placed, FileIo.Kept, FileIo.Shape;
    hide DirOk, OnDevice;
    hide Shaped, BlocksTo, OwnOf, BytesOf, WriteDir;
    var c := BlocksOf(v.nodes[i]);
    SoundShaped(v);
    FileShape(v, dk, i, s);
    FileIo.PlacedFacts(s, t, v.ds, Min(off, s.n.size), Payload(s.n.size, off, data), c, BlocksTo(c, off + |data|));
    DirView(v, dk, dk', i, data, off, s, t, n');
    FileWritten(v, dk, dk', i, s, t, n');
    if Min(off, s.n.size) == off + |data| {
      Unwritten(v, i, data, off);
    }
    WriteDirIs(v, i, data, off);
  }

  /** The two branches of the flat write put together. */
  lemma WriteDirIs(v: Volume, i: nat, data: seq<Byte>, off: nat)
    requires i in v.nodes
    requires var n, end := v.nodes[i], off + |data|;
             var c := BlocksOf(n);
             && Affordable(n.own, v.free, v.next, v.nb, c, Min(off, n.dirSize), end)
             && (Min(off, n.dirSize) == end ==> BlocksTo(c, end) == c && DirWritten(n, v.next, data, off) == n)
    ensures var n := v.nodes[i];
            var c := BlocksOf(n);
            var used := Needed(c, BlocksTo(c, off + |data|));
            var r := WriteDir(v, i, data, off);
            && r.Ok? && used <= v.free
            && r.vol == v.(free := v.free - used, next := v.next + used,
                        nodes := v.nodes[i := DirWritten(n, v.next, data, off)])
  {
    hide DirWritten;
    assert v.nodes[i := v.nodes[i]] == v.nodes;
  }

  /** Writing nothing leaves a directory as it is. */
  lemma Unwritten(v: Volume, i: nat, data: seq<Byte>, off: nat)
    requires Sound(v) && i in v.nodes && v.nodes[i].kind == Dir && Min(off, v.nodes[i].dirSize) == off + |data|
    ensures BlocksTo(BlocksOf(v.nodes[i]), off + |data|) == BlocksOf(v.nodes[i])
    ensures DirWritten(v.nodes[i], v.next, data, off) == v.nodes[i]
  {
    hide Sound, SlotsLeft, RawLeft, Covering;
    var n := v.nodes[i];
    DirShape(v, i);
    SameBytes(v, i, data, off);
    NoGrowth(n.own, BlocksOf(n), v.next);
  }

  /** What the block loop does to a file of either kind is the flat write. */
  lemma WriteDone(v: Volume, dk: Disk, dk': Disk, i: nat, data: seq<Byte>, off: nat, s: FileIo.Work,
                  t: FileIo.Work, count: nat)
    requires Sound(v) && v.nodes == NodesOf(dk, v.ds) && i in dk.itab && i in v.nodes
    requires s == FileIo.Work(dk, v.free, v.next, dk.itab[i])
    requires var n, end := v.nodes[i], off + |data|;
             var c := BlocksHeld(n);
             var c' := BlocksTo(c, end);
             && c <= MAX_FILE_BLKS
             && FileIo.Placed(s, t, v.ds, Min(off, s.n.size), Payload(s.n.size, off, data), c, c')
             && Affordable(FileIo.Ids(s, v.ds), v.free, v.next, v.nb, c, Min(off, s.n.size), end)
             && (end <= MAX_FILE_BYTES ==>
                   && count == |data| && FileIo.Bytes(t, v.ds) == Splice(FileIo.Bytes(s, v.ds), off, data)
                   && t.n.size == if c' > c || end > s.n.size then end else s.n.size)
             && (end > MAX_FILE_BYTES ==>
                   && count == (MAX_FILE_BYTES - off) % U64 && t.n.size == s.n.size
                   && |Splice(FileIo.Bytes(s, v.ds), off, data)| >= s.n.size
                   && FileIo.Bytes(t, v.ds) == Splice(FileIo.Bytes(s, v.ds), off, data)[..s.n.size])
    requires dk' == if off + |data| <= MAX_FILE_BYTES then t.dk.(itab := t.dk.itab[i := t.n]) else t.dk
    ensures dk'.bitmap == dk.bitmap
    ensures (if dk.itab[i].kind == Reg then WriteReg(v, i, data, off) else WriteDir(v, i, data, off)) ==
            Ok(v.(free := t.free, next := t.next, nodes := NodesOf(dk', v.ds)), count)
  {
    hide Sound, NodesOf, NodeOf, Affordable, Splice, FileIo.Bytes, FileIo.Ids, FileIo.Shape, GrowTo, Overwrite, SlotsIn;
    FileShape(v, dk, i, s);
    assert t.dk.itab == dk.itab && t.dk.bitmap == dk.bitmap;
    var n' := if off + |data| <= MAX_FILE_BYTES then t.n else s.n;
    assert dk' == t.dk.(itab := dk.itab[i := n']) by { assert dk.itab[i := dk.itab[i]] == dk.itab; }
    if dk.itab[i].kind == Reg {
      RegWritten(v, dk, dk', i, data, off, s, t);
    } else {
      DirWriteIs(v, dk, dk', i, data, off, s, t, n');
    }
    CountIs(v, i, data, off);
  }

  lemma CountIs(v: Volume, i: nat, data: seq<Byte>, off: nat)
    requires i in v.nodes && (v.nodes[i].kind == Dir ==> v.nodes[i].dirSize <= MAX_FILE_BYTES)
    ensures var r := if v.nodes[i].kind == Reg then WriteReg(v, i, data, off) else WriteDir(v, i, data, off);
            r.Ok? ==> r.val == if off + |data| <= MAX_FILE_BYTES then |data| else (MAX_FILE_BYTES - off) % U64
  {
    hide Affordable, Reaches, DirWritten;
  }

  /** The blocks a write needs are not to be had. */
  lemma WriteFails(v: Volume, dk: Disk, i: nat, data: seq<Byte>, off: nat, s: FileIo.Work)
    requires Sound(v) && v.nodes == NodesOf(dk, v.ds) && i in dk.itab && i in v.nodes
    requires s == FileIo.Work(dk, v.free, v.next, dk.itab[i])
    requires var c := BlocksHeld(v.nodes[i]);
             !Affordable(FileIo.Ids(s, v.ds), v.free, v.next, v.nb, c, Min(off, s.n.size), off + |data|)
    ensures (if dk.itab[i].kind == Reg then WriteReg(v, i, data, off) else WriteDir(v, i, data, off)).Fatal?
  {
    hide Sound, NodesOf, NodeOf, Reaches, FileIo.Bytes, FileIo.Ids, FileIo.Shape, Unaffordable, DirWritten;
    FileShape(v, dk, i, s);
    if dk.itab[i].kind == Reg {
      FileIo.FullAffordable(s, v.ds, v.nb, Min(off, s.n.size), off + |data|);
    }
  }

  /** What the read loop returns is the flat read. */
  lemma ReadIs(v: Volume, dk: Disk, fh: nat, size: nat, off: nat, buf: seq<Byte>, s: FileIo.Work)
    requires Sound(v) && v.nodes == NodesOf(dk, v.ds) && fh in v.open && v.open[fh] in v.nodes && v.open[fh] in dk.itab
    requires s == FileIo.Work(dk, v.free, v.next, dk.itab[v.open[fh]])
    requires var all := FileIo.Bytes(s, v.ds);
             var hi := FileIo.ReadEnd(s.n, size, off, BlocksHeld(v.nodes[v.open[fh]]));
             hi <= |all| && buf == if off < hi then all[off..hi] else []
    ensures Read(v, fh, size, off) == Ok(v, buf)
  {
    hide Sound, NodesOf, NodeOf, OwnOf, DataAt, DirOk;
    FileShape(v, dk, v.open[fh], s);
    var all, n := FileIo.Bytes(s, v.ds), v.nodes[v.open[fh]];
    assert off < |all| ==> all[off..off] == [];
    if n.kind == Dir {
      DirShape(v, v.open[fh]);
      SizeHeld(n, v.ds);
      assert Contents(n) == all;
    }
  }

  lemma SmallIno(v: Volume, i: nat)
    requires Sound(v) && i in v.nodes
    ensures i < U64
  {
  }

  lemma SmallLoose(v: Volume, f: nat)
    requires Sound(v) && Loose(v, f)
    ensures f < U64
  {
    SmallIno(v, f);
  }

  /** A path that resolves was short enough to be entered. */
  lemma FoundShort(v: Volume, p: Path)
    requires Sound(v) && GetDe(v.nodes, p).Found? && p != "/"
    ensures |p| < MAX_FILE_NAME_LEN
  {
    FoundEntry(v.nodes, v.ds, v.nb, p);
    var l := GetDe(v.nodes, p);
    assert NodeOk(v.nodes[l.dir], v.ds);
  }

  lemma NoHandle(v: Volume, fh: nat, data: seq<Byte>, size: nat, off: nat)
    requires fh !in v.open || v.open[fh] !in v.nodes
    ensures Read(v, fh, size, off).Fatal? && Write(v, fh, data, off).Fatal?
  {
  }

  /** create's last steps put together. */
  lemma NewFileIs(v: Volume, d: nat, p: PlainPath, i: nat)
    requires d in v.nodes
    ensures !AddDentry(v, d, p, i).Ok? ==> NewFile(v, d, p, i).Fatal?
    ensures AddDentry(v, d, p, i).Ok? && !OpenHandle(AddDentry(v, d, p, i).vol, i).Ok? ==> NewFile(v, d, p, i).Fatal?
  {
    hide AddDentry, OpenHandle;
  }

  lemma NewFileEnds(v: Volume, v1: Volume, w: Volume, d: nat, p: PlainPath, i: nat, fh: nat)
    requires d in v.nodes && AddDentry(v, d, p, i).Ok? && AddDentry(v, d, p, i).vol == v1
    requires OpenHandle(v1, i) == Ok(w, fh)
    ensures NewFile(v, d, p, i) ==
            if w.free < PREALLOC || w.next + NUM_DIRECT_BLOCKS >= w.nb then Fatal
            else Ok(w.(free := w.free - PREALLOC, next := w.next + PREALLOC,
                    nodes := w.nodes[i := Node(Reg, 1, 0, [], [], PreallocOwn(w.next), 0)]), fh)
  {
    hide AddDentry, OpenHandle, PreallocOwn;
  }
}
