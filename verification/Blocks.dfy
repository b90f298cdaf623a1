/**
 The block level: inodes with direct and indirect block ids, and the blocks themselves. A data
 block is its bytes, whether they are read as file contents or as dentries. Indirect lists are kept
 apart: no id is ever handed out twice, so no block is both. A block that was never written reads
 as the zero block left by formatting.
 */
module Blocks {
  import opened Layout
  import opened Directory
  import opened Raw
  import opened Volumes
  import opened Invariants

  type Blks = s: seq<nat> | |s| == NUM_DIRECT_BLOCKS + 1 witness seq(NUM_DIRECT_BLOCKS + 1, _ => 0)
  type DentBlk = s: seq<Dentry> | |s| == NUM_DIRENTS_PER_BLOCK witness seq(NUM_DIRENTS_PER_BLOCK, _ => EMPTY)
  type IdBlk = s: seq<nat> | |s| == NUM_BLKS_PER_IB witness seq(NUM_BLKS_PER_IB, _ => 0)
  type DataBlk = s: seq<Byte> | |s| == BLK_SZ witness seq(BLK_SZ, _ => 0)

  datatype Inode = Inode(kind: Kind, refs: int, links: int, size: nat, blks: Blks)

  datatype Disk = Disk(
    bitmap: Bits,
    itab: map<nat, Inode>,
    ids: map<nat, IdBlk>,
    data: map<nat, DataBlk>)

  function IdsAt(dk: Disk, b: nat): IdBlk {
    if b in dk.ids then dk.ids[b] else seq(NUM_BLKS_PER_IB, _ => 0)
  }

  function DataAt(dk: Disk, b: nat): DataBlk {
    if b in dk.data then dk.data[b] else seq(BLK_SZ, _ => 0)
  }

  /** The bytes of a block read as dentries. */
  function DentsAt(dk: Disk, b: nat): DentBlk {
    SlotsIn(DataAt(dk, b))
  }

  /** Id of data block k of an inode: direct, or through the indirect block. */
  function IdAt(dk: Disk, ds: nat, n: Inode, k: nat): nat
    requires k < MAX_FILE_BLKS
  {
    if k < NUM_DIRECT_BLOCKS then n.blks[k]
    else if n.blks[NUM_DIRECT_BLOCKS] < ds then 0
    else IdsAt(dk, n.blks[NUM_DIRECT_BLOCKS])[k - NUM_DIRECT_BLOCKS]
  }

  function OwnOf(dk: Disk, ds: nat, n: Inode): (r: Own)
    ensures forall k :: 0 <= k < MAX_FILE_BLKS ==> r[k] == IdAt(dk, ds, n, k)
    ensures r[IND] == n.blks[NUM_DIRECT_BLOCKS]
  {
    seq(OWN_LEN, k requires 0 <= k < OWN_LEN =>
      if k == IND then n.blks[NUM_DIRECT_BLOCKS] else IdAt(dk, ds, n, k))
  }

  /** Number of leading allocated blocks from k on. */
  function Leading(own: Own, ds: nat, k: nat): (c: nat)
    requires k <= MAX_FILE_BLKS
    ensures k <= c <= MAX_FILE_BLKS
    ensures forall j :: k <= j < c ==> own[j] >= ds
    ensures c < MAX_FILE_BLKS ==> own[c] < ds
    decreases |own| - k
  {
    if k == MAX_FILE_BLKS || own[k] < ds then k else Leading(own, ds, k + 1)
  }

  function SlotsOf(dk: Disk, own: Own, c: nat): (r: seq<Dentry>)
    requires c <= MAX_FILE_BLKS
    ensures |r| == c * NUM_DIRENTS_PER_BLOCK
    ensures forall j :: 0 <= j < |r| ==>
                          r[j] == DentsAt(dk, own[j / NUM_DIRENTS_PER_BLOCK])[j % NUM_DIRENTS_PER_BLOCK]
  {
    seq(c * NUM_DIRENTS_PER_BLOCK, j requires 0 <= j < c * NUM_DIRENTS_PER_BLOCK =>
      DentsAt(dk, own[j / NUM_DIRENTS_PER_BLOCK])[j % NUM_DIRENTS_PER_BLOCK])
  }

  /** Byte j of a file, wherever its block is. */
  function ByteAt(dk: Disk, own: Own, j: nat): Byte {
    if j / BLK_SZ < MAX_FILE_BLKS then DataAt(dk, own[j / BLK_SZ])[j % BLK_SZ] else 0
  }

  function BytesOf(dk: Disk, own: Own, size: nat): (r: seq<Byte>)
    ensures |r| == size
    ensures forall j :: 0 <= j < size ==> r[j] == ByteAt(dk, own, j)
  {
    seq(size, j requires 0 <= j => ByteAt(dk, own, j))
  }

  /** The flat view of one inode. */
  function NodeOf(dk: Disk, ds: nat, n: Inode): (r: Node)
    ensures r.own == OwnOf(dk, ds, n) && r.kind == n.kind && r.refs == n.refs && r.links == n.links
  {
    var own := OwnOf(dk, ds, n);
    match n.kind
    case Dir =>
      var c := Leading(own, ds, 0);
      Node(Dir, n.refs, n.links, SlotsOf(dk, own, c), BytesOf(dk, own, c * BLK_SZ), own, n.size)
    case Reg => Node(Reg, n.refs, n.links, [], BytesOf(dk, own, n.size), own, 0)
  }

  function NodesOf(dk: Disk, ds: nat): (r: Nodes)
    ensures r.Keys == dk.itab.Keys
    ensures forall i :: i in r ==> r[i] == NodeOf(dk, ds, dk.itab[i])
  {
    map i | i in dk.itab :: NodeOf(dk, ds, dk.itab[i])
  }

  // ---- what a change of the stores leaves alone -------------------------------------

  /** dk' agrees with dk on every block the inode n reads. */
  ghost predicate Agree(dk: Disk, dk': Disk, ds: nat, n: Inode) {
    && (n.blks[NUM_DIRECT_BLOCKS] >= ds ==>
          IdsAt(dk', n.blks[NUM_DIRECT_BLOCKS]) == IdsAt(dk, n.blks[NUM_DIRECT_BLOCKS]))
    && (forall k :: 0 <= k < MAX_FILE_BLKS && (n.kind == Dir ==> IdAt(dk, ds, n, k) >= ds) ==>
                      DataAt(dk', IdAt(dk, ds, n, k)) == DataAt(dk, IdAt(dk, ds, n, k)))
  }

  lemma NodeFrame(dk: Disk, dk': Disk, ds: nat, n: Inode)
    requires Agree(dk, dk', ds, n)
    ensures NodeOf(dk', ds, n) == NodeOf(dk, ds, n)
  {
    hide SlotsIn;
    var own, own' := OwnOf(dk, ds, n), OwnOf(dk', ds, n);
    assert own == own';
    if n.kind == Dir {
      var c := Leading(own, ds, 0);
      assert SlotsOf(dk', own, c) == SlotsOf(dk, own, c);
      assert BytesOf(dk', own, c * BLK_SZ) == BytesOf(dk, own, c * BLK_SZ);
    } else {
      assert BytesOf(dk', own, n.size) == BytesOf(dk, own, n.size);
    }
  }

  /** A directory's dentries are what its bytes say. */
  lemma SlotsRead(dk: Disk, own: Own, c: nat)
    requires c <= MAX_FILE_BLKS
    ensures SlotsOf(dk, own, c) == SlotsIn(BytesOf(dk, own, c * BLK_SZ))
  {
    hide SlotsIn, BytesOf;
    var raw := BytesOf(dk, own, c * BLK_SZ);
    forall j: nat | j < c * NUM_DIRENTS_PER_BLOCK ensures SlotsOf(dk, own, c)[j] == SlotsIn(raw)[j] {
      SlotRead(dk, own, c, j / NUM_DIRENTS_PER_BLOCK, j % NUM_DIRENTS_PER_BLOCK);
    }
  }

  lemma SlotRead(dk: Disk, own: Own, c: nat, k: nat, x: nat)
    requires k < c <= MAX_FILE_BLKS && x < NUM_DIRENTS_PER_BLOCK
    ensures SlotsIn(DataAt(dk, own[k]))[x] == SlotsIn(BytesOf(dk, own, c * BLK_SZ))[k * NUM_DIRENTS_PER_BLOCK + x]
  {
    hide FromRecord, BytesOf, SlotAt;
    var j := k * NUM_DIRENTS_PER_BLOCK + x;
    SlotFits(BytesOf(dk, own, c * BLK_SZ), j);
    SlotFits(DataAt(dk, own[k]), x);
    SlotAtBlock(k, x);
    RecordWithin(dk, own, c, k, x);
  }

  lemma RecordWithin(dk: Disk, own: Own, c: nat, k: nat, x: nat)
    requires k < c <= MAX_FILE_BLKS && x < NUM_DIRENTS_PER_BLOCK
    ensures var raw, blk := BytesOf(dk, own, c * BLK_SZ), DataAt(dk, own[k]);
            var at := k * BLK_SZ + x * DIRENT_SZ;
            raw[at..at + DIRENT_SZ] == blk[x * DIRENT_SZ..x * DIRENT_SZ + DIRENT_SZ]
  {
    var at := k * BLK_SZ + x * DIRENT_SZ;
    var a := BytesOf(dk, own, c * BLK_SZ)[at..at + DIRENT_SZ];
    var b := DataAt(dk, own[k])[x * DIRENT_SZ..x * DIRENT_SZ + DIRENT_SZ];
    forall i | 0 <= i < DIRENT_SZ ensures a[i] == b[i] {
      assert (at + i) / BLK_SZ == k && (at + i) % BLK_SZ == x * DIRENT_SZ + i;
    }
  }

  predicate SameBlock(dk: Disk, dk': Disk, b: nat) {
    IdsAt(dk', b) == IdsAt(dk, b) && DataAt(dk', b) == DataAt(dk, b)
  }

  /** Only blocks of inode i and blocks not handed out before have changed. */
  ghost predicate OnlyTouches(dk: Disk, dk': Disk, ds: nat, next: nat, i: nat) {
    forall b: nat :: b < ds || (b < next && !HeldBy(NodesOf(dk, ds), b, i)) ==> SameBlock(dk, dk', b)
  }

  ghost predicate HeldBy(nodes: Nodes, b: nat, i: nat) {
    exists k: nat :: Holds(nodes, b, i, k)
  }

  lemma OtherAgrees(dk: Disk, dk': Disk, ds: nat, next: nat, i: nat, j: nat)
    requires Owned(NodesOf(dk, ds), ds, next) && OnlyTouches(dk, dk', ds, next, i)
    requires j in dk.itab && j != i
    ensures Agree(dk, dk', ds, dk.itab[j])
  {
    var nodes, n := NodesOf(dk, ds), dk.itab[j];
    forall k: nat | k < OWN_LEN ensures SameBlock(dk, dk', nodes[j].own[k]) {
      var b := nodes[j].own[k];
      assert Holds(nodes, b, j, k);
    }
    assert SameBlock(dk, dk', nodes[j].own[IND]);
    forall k: nat | k < MAX_FILE_BLKS ensures SameBlock(dk, dk', IdAt(dk, ds, n, k)) {
      assert nodes[j].own[k] == IdAt(dk, ds, n, k);
    }
  }

  /** A change confined to one inode and its blocks is an update of that inode's flat view. */
  lemma NodesUpdate(dk: Disk, dk': Disk, ds: nat, next: nat, i: nat)
    requires Owned(NodesOf(dk, ds), ds, next) && OnlyTouches(dk, dk', ds, next, i)
    requires i in dk'.itab && dk'.itab == dk.itab[i := dk'.itab[i]]
    ensures NodesOf(dk', ds) == NodesOf(dk, ds)[i := NodeOf(dk', ds, dk'.itab[i])]
  {
    hide Owned, OnlyTouches, Agree, NodeOf, OwnOf;
    forall j | j in dk.itab && j != i
      ensures NodeOf(dk', ds, dk'.itab[j]) == NodeOf(dk, ds, dk.itab[j])
    {
      OtherAgrees(dk, dk', ds, next, i, j);
      NodeFrame(dk, dk', ds, dk.itab[j]);
    }
  }

  /** Writing one dentry slot of an allocated directory block. */
  lemma SlotWritten(dk: Disk, dk': Disk, ds: nat, next: nat, d: nat, k: nat, x: nat, de: Dentry, links: int)
    requires Owned(NodesOf(dk, ds), ds, next) && d in dk.itab && dk.itab[d].kind == Dir && Storable(de)
    requires DirOk(NodesOf(dk, ds)[d], ds) && x < NUM_DIRENTS_PER_BLOCK
    requires k * NUM_DIRENTS_PER_BLOCK < |NodesOf(dk, ds)[d].slots|
    requires var b := NodesOf(dk, ds)[d].own[k];
             dk' == dk.(data := dk.data[b := PutRecord(DataAt(dk, b), x, de)],
             itab := dk.itab[d := dk.itab[d].(links := links)])
    ensures var n := NodesOf(dk, ds)[d];
            && k * NUM_DIRENTS_PER_BLOCK + x < |n.slots|
            && NodesOf(dk', ds) ==
               NodesOf(dk, ds)[d := PutDentry(n, k * NUM_DIRENTS_PER_BLOCK + x, de).(links := links)]
  {
    hide NodeOf, OwnOf, Owned, DirOk, Agree, PutRecord, SlotsIn;
    var nodes := NodesOf(dk, ds);
    var own := nodes[d].own;
    DirPrefix(nodes[d], ds, k);
    OwnDistinct(nodes, ds, next, d, k);
    assert Holds(nodes, own[k], d, k);
    assert OnlyTouches(dk, dk', ds, next, d);
    NodesUpdate(dk, dk', ds, next, d);
    SlotView(dk, dk', ds, dk.itab[d], k, x, de, links);
  }

  /** No other place of the same inode holds the block at place k. */
  lemma OwnDistinct(nodes: Nodes, ds: nat, next: nat, i: nat, k: nat)
    requires Owned(nodes, ds, next) && i in nodes && k < OWN_LEN && nodes[i].own[k] >= ds
    ensures nodes[i].own[k] < next
    ensures forall l :: 0 <= l < OWN_LEN && l != k ==> nodes[i].own[l] != nodes[i].own[k]
  {
    var b := nodes[i].own[k];
    assert Holds(nodes, b, i, k);
    forall l | 0 <= l < OWN_LEN && l != k ensures nodes[i].own[l] != b {
      assert Holds(nodes, nodes[i].own[l], i, l);
    }
  }

  lemma DirPrefix(n: Node, ds: nat, k: nat)
    requires DirOk(n, ds) && k * NUM_DIRENTS_PER_BLOCK < |n.slots|
    ensures k < MAX_FILE_BLKS && n.own[k] >= ds
  {
  }

  lemma SlotView(dk: Disk, dk': Disk, ds: nat, n: Inode, k: nat, x: nat, de: Dentry, links: int)
    requires n.kind == Dir && x < NUM_DIRENTS_PER_BLOCK && k < MAX_FILE_BLKS && Storable(de)
    requires k * NUM_DIRENTS_PER_BLOCK < |NodeOf(dk, ds, n).slots|
    requires var own := OwnOf(dk, ds, n);
             && (forall l :: 0 <= l < MAX_FILE_BLKS && l != k && own[l] >= ds ==> own[l] != own[k])
             && dk'.ids == dk.ids && dk'.data == dk.data[own[k] := PutRecord(DataAt(dk, own[k]), x, de)]
    ensures var v := NodeOf(dk, ds, n);
            && k * NUM_DIRENTS_PER_BLOCK + x < |v.slots|
            && NodeOf(dk', ds, n.(links := links)) == PutDentry(v, k * NUM_DIRENTS_PER_BLOCK + x, de).(links := links)
  {
    hide SlotsIn, PutRecord;
    var own := OwnOf(dk, ds, n);
    assert OwnOf(dk', ds, n.(links := links)) == own;
    var c := Leading(own, ds, 0);
    SlotsPut(dk, dk', own, c, k, x, de);
    RawPut(dk, dk', own, c, k, x, de);
  }

  lemma SlotsPut(dk: Disk, dk': Disk, own: Own, c: nat, k: nat, x: nat, de: Dentry)
    requires k < c <= MAX_FILE_BLKS && x < NUM_DIRENTS_PER_BLOCK && Storable(de)
    requires forall l :: 0 <= l < c && l != k ==> own[l] != own[k]
    requires dk'.data == dk.data[own[k] := PutRecord(DataAt(dk, own[k]), x, de)]
    ensures SlotsOf(dk', own, c) == SlotsOf(dk, own, c)[k * NUM_DIRENTS_PER_BLOCK + x := de]
  {
    hide SlotsIn, PutRecord;
    PutSlot(DataAt(dk, own[k]), x, de);
    var s, s' := SlotsOf(dk, own, c), SlotsOf(dk', own, c);
    forall j | 0 <= j < |s| ensures s'[j] == s[k * NUM_DIRENTS_PER_BLOCK + x := de][j] {
      assert j / NUM_DIRENTS_PER_BLOCK < c;
    }
  }

  lemma RawPut(dk: Disk, dk': Disk, own: Own, c: nat, k: nat, x: nat, de: Dentry)
    requires k < c <= MAX_FILE_BLKS && x < NUM_DIRENTS_PER_BLOCK
    requires forall l :: 0 <= l < c && l != k ==> own[l] != own[k]
    requires dk'.data == dk.data[own[k] := PutRecord(DataAt(dk, own[k]), x, de)]
    ensures BytesOf(dk', own, c * BLK_SZ) == PutRecord(BytesOf(dk, own, c * BLK_SZ), k * NUM_DIRENTS_PER_BLOCK + x, de)
  {
    hide ToRecord, PutRecord, SlotAt;
    var raw, blk := BytesOf(dk, own, c * BLK_SZ), DataAt(dk, own[k]);
    var j := k * NUM_DIRENTS_PER_BLOCK + x;
    SlotAtBlock(k, x);
    forall i: nat | i < c * BLK_SZ ensures BytesOf(dk', own, c * BLK_SZ)[i] == PutRecord(raw, j, de)[i] {
      PutAt(raw, j, de, i);
      if i / BLK_SZ == k {
        PutAt(blk, x, de, i % BLK_SZ);
        assert i == k * BLK_SZ + i % BLK_SZ;
      }
    }
  }

  /** dk' is dk after directory d has gained block number c, holding the one dentry de. */
  ghost predicate Grown(dk: Disk, dk': Disk, ds: nat, next: nat, d: nat, de: Dentry, links: int)
    requires d in dk.itab
  {
    var own := OwnOf(dk, ds, dk.itab[d]);
    var c := Leading(own, ds, 0);
    && c < MAX_FILE_BLKS && d in dk'.itab
    && var own', n' := GrowOwn(own, c, next), dk'.itab[d];
    && n'.kind == Dir && n'.refs == dk.itab[d].refs && n'.links == links && n'.size == dk.itab[d].size
    && OwnOf(dk', ds, n') == own'
    && dk'.itab == dk.itab[d := n']
    && dk'.data == dk.data[own'[c] := NewRaw(de)]
    && (forall b: nat :: b != own'[IND] || b < ds ==> IdsAt(dk', b) == IdsAt(dk, b))
  }

  lemma GrowWritten(dk: Disk, dk': Disk, ds: nat, next: nat, d: nat, de: Dentry, links: int)
    requires Owned(NodesOf(dk, ds), ds, next) && ds <= next && d in dk.itab && dk.itab[d].kind == Dir
    requires DirOk(NodesOf(dk, ds)[d], ds) && Storable(de)
    requires Grown(dk, dk', ds, next, d, de, links)
    ensures var n := NodesOf(dk, ds)[d];
            && |n.slots| / NUM_DIRENTS_PER_BLOCK < MAX_FILE_BLKS
            && NodesOf(dk', ds) ==
               NodesOf(dk, ds)[d := n.(slots := n.slots + NewBlock(de), bytes := n.bytes + NewRaw(de), links := links,
               own := GrowOwn(n.own, |n.slots| / NUM_DIRENTS_PER_BLOCK, next))]
  {
    hide NodeOf, Owned, DirOk, Agree, GrowOwn, NewRaw, SlotsIn;
    var nodes := NodesOf(dk, ds);
    GrowTouches(dk, dk', ds, next, d, de, links);
    NodesUpdate(dk, dk', ds, next, d);
    GrowView(dk, dk', ds, next, d, de, links);
  }

  lemma GrowTouches(dk: Disk, dk': Disk, ds: nat, next: nat, d: nat, de: Dentry, links: int)
    requires ds <= next && d in dk.itab && Grown(dk, dk', ds, next, d, de, links)
    ensures OnlyTouches(dk, dk', ds, next, d)
  {
    var nodes := NodesOf(dk, ds);
    var own := nodes[d].own;
    var c := Leading(own, ds, 0);
    var own' := GrowOwn(own, c, next);
    assert own'[c] >= next;
    forall b: nat | b < ds || (b < next && !HeldBy(nodes, b, d)) ensures SameBlock(dk, dk', b) {
      if b == own'[IND] && b >= ds {
        assert Holds(nodes, b, d, IND);
        assert HeldBy(nodes, b, d);
      }
    }
  }

  /** The blocks of a well-formed directory are the leading allocated ones. */
  lemma DirLeading(n: Node, ds: nat)
    requires DirOk(n, ds)
    ensures Leading(n.own, ds, 0) == |n.slots| / NUM_DIRENTS_PER_BLOCK
    ensures |n.slots| == Leading(n.own, ds, 0) * NUM_DIRENTS_PER_BLOCK
    ensures forall k :: Leading(n.own, ds, 0) <= k < MAX_FILE_BLKS ==> n.own[k] < ds
  {
    var c := Leading(n.own, ds, 0);
    assert c < MAX_FILE_BLKS ==> n.own[c] < ds;
    assert c > 0 ==> n.own[c - 1] >= ds;
  }

  lemma GrowOwnLeads(own: Own, ds: nat, next: nat)
    requires ds <= next && Leading(own, ds, 0) < MAX_FILE_BLKS
    requires forall k :: Leading(own, ds, 0) <= k < MAX_FILE_BLKS ==> own[k] < ds
    ensures var c := Leading(own, ds, 0);
            var own' := GrowOwn(own, c, next);
            && Leading(own', ds, 0) == c + 1 && own'[c] >= next
            && (forall k :: 0 <= k < MAX_FILE_BLKS && k != c ==> own'[k] == own[k])
  {
    var c := Leading(own, ds, 0);
    var own' := GrowOwn(own, c, next);
    assert forall k :: 0 <= k < MAX_FILE_BLKS && k != c ==> own'[k] == own[k];
    assert own'[c] >= ds;
    assert c + 1 < MAX_FILE_BLKS ==> own'[c + 1] < ds;
  }

  lemma SlotsAppended(dk: Disk, dk': Disk, own: Own, own': Own, c: nat, de: Dentry)
    requires c < MAX_FILE_BLKS && (forall k :: 0 <= k < c ==> own'[k] == own[k] && own[k] != own'[c]) && Storable(de)
    requires dk'.data == dk.data[own'[c] := NewRaw(de)]
    ensures SlotsOf(dk', own', c + 1) == SlotsOf(dk, own, c) + NewBlock(de)
  {
    hide SlotsIn, NewRaw;
    NewSlots(de);
    var s, s' := SlotsOf(dk, own, c) + NewBlock(de), SlotsOf(dk', own', c + 1);
    forall j | 0 <= j < |s'| ensures s'[j] == s[j] {
      assert j / NUM_DIRENTS_PER_BLOCK <= c;
    }
  }

  lemma RawAppended(dk: Disk, dk': Disk, own: Own, own': Own, c: nat, blk: DataBlk)
    requires c < MAX_FILE_BLKS && (forall k :: 0 <= k < c ==> own'[k] == own[k] && own[k] != own'[c])
    requires dk'.data == dk.data[own'[c] := blk]
    ensures BytesOf(dk', own', (c + 1) * BLK_SZ) == BytesOf(dk, own, c * BLK_SZ) + blk
  {
    var r, r' := BytesOf(dk, own, c * BLK_SZ) + blk, BytesOf(dk', own', (c + 1) * BLK_SZ);
    forall j | 0 <= j < |r'| ensures r'[j] == r[j] {
      assert j / BLK_SZ <= c;
    }
  }

  lemma GrowView(dk: Disk, dk': Disk, ds: nat, next: nat, d: nat, de: Dentry, links: int)
    requires Owned(NodesOf(dk, ds), ds, next) && ds <= next && d in dk.itab && dk.itab[d].kind == Dir
    requires DirOk(NodesOf(dk, ds)[d], ds) && Storable(de)
    requires Grown(dk, dk', ds, next, d, de, links)
    ensures var n := NodesOf(dk, ds)[d];
            && Leading(n.own, ds, 0) == |n.slots| / NUM_DIRENTS_PER_BLOCK < MAX_FILE_BLKS
            && NodeOf(dk', ds, dk'.itab[d]) ==
               n.(slots := n.slots + NewBlock(de), bytes := n.bytes + NewRaw(de), links := links,
               own := GrowOwn(n.own, |n.slots| / NUM_DIRENTS_PER_BLOCK, next))
  {
    hide Owned, DirOk, GrowOwn, OwnOf, SlotsIn, NewRaw;
    var nodes := NodesOf(dk, ds);
    var n := nodes[d];
    DirLeading(n, ds);
    var c := Leading(n.own, ds, 0);
    GrowOwnLeads(n.own, ds, next);
    forall k | 0 <= k < c ensures n.own[k] < next {
      OwnDistinct(nodes, ds, next, d, k);
    }
    SlotsAppended(dk, dk', n.own, GrowOwn(n.own, c, next), c, de);
    RawAppended(dk, dk', n.own, GrowOwn(n.own, c, next), c, NewRaw(de));
  }

  /** Writing back an inode whose counts changed. */
  lemma CountsWritten(dk: Disk, dk': Disk, ds: nat, i: nat, refs: int, links: int)
    requires i in dk.itab && dk' == dk.(itab := dk.itab[i := dk.itab[i].(refs := refs, links := links)])
    ensures NodesOf(dk', ds) == NodesOf(dk, ds)[i := NodesOf(dk, ds)[i].(refs := refs, links := links)]
  {
    hide NodeOf, OwnOf;
    forall j | j in dk.itab ensures NodeOf(dk', ds, dk.itab[j]) == NodeOf(dk, ds, dk.itab[j]) {
      NodeFrame(dk, dk', ds, dk.itab[j]);
    }
    CountsView(dk', ds, dk.itab[i], refs, links);
  }

  lemma CountsView(dk: Disk, ds: nat, n: Inode, refs: int, links: int)
    ensures NodeOf(dk, ds, n.(refs := refs, links := links)) == NodeOf(dk, ds, n).(refs := refs, links := links)
  {
    assert OwnOf(dk, ds, n.(refs := refs, links := links)) == OwnOf(dk, ds, n);
  }

  /** The new ids of a directory that gains a direct block. */
  lemma GrowDirect(dk: Disk, dk': Disk, ds: nat, n: Inode, k: nat, b: nat, links: int)
    requires k < NUM_DIRECT_BLOCKS && dk'.ids == dk.ids
    ensures OwnOf(dk', ds, n.(blks := n.blks[k := b], links := links)) == GrowOwn(OwnOf(dk, ds, n), k, b)
  {
  }

  /** The new ids of a directory that gains a block listed in its indirect block. */
  lemma GrowListed(dk: Disk, dk': Disk, ds: nat, n: Inode, x: nat, b: nat, links: int)
    requires 0 < x < NUM_BLKS_PER_IB && n.blks[NUM_DIRECT_BLOCKS] >= ds
    requires dk'.ids == dk.ids[n.blks[NUM_DIRECT_BLOCKS] := IdsAt(dk, n.blks[NUM_DIRECT_BLOCKS])[x := b]]
    ensures OwnOf(dk', ds, n.(links := links)) == GrowOwn(OwnOf(dk, ds, n), NUM_DIRECT_BLOCKS + x, b)
  {
  }

  /** The new ids of a directory that gains its indirect block and the first block listed there. */
  lemma GrowIndirect(dk: Disk, dk': Disk, ds: nat, n: Inode, b: nat, links: int)
    requires n.blks[NUM_DIRECT_BLOCKS] < ds <= b
    requires dk'.ids == dk.ids[b := (seq(NUM_BLKS_PER_IB, _ => 0))[0 := b + 1]]
    ensures OwnOf(dk', ds, n.(blks := n.blks[NUM_DIRECT_BLOCKS := b], links := links))
         == GrowOwn(OwnOf(dk, ds, n), NUM_DIRECT_BLOCKS, b)
  {
  }
}
