/** The layout of a volume, its superblock, and what formatting leaves. */
module Format {
  import opened Layout
  import opened Paths
  import opened Raw
  import opened Volumes
  import opened Invariants
  import opened CreateOps
  import opened NewVolumes
  import opened Blocks
  import opened Steps

  const SB_START: nat := 0
  const MT_START: nat := 1
  const IBM_START: nat := 2
  const ITAB_START: nat := IBM_START + NUM_IBITMAP_BLOCKS
  const META_START: nat := ITAB_START + NUM_ITAB_BLOCKS

  /** Security metadata of a block: an IV of 12 bytes and a MAC of 16 bytes. */
  const META_SZ: nat := 12 + 16

  /** Blocks for the security metadata of every block. */
  function NumMeta(nb: nat): nat {
    nb / (BLK_SZ / META_SZ) + 1
  }

  function DataStart(nb: nat): nat {
    META_START + NumMeta(nb)
  }

  datatype Region = SuperBlk | MerkleRoot | InodeBitmap | InodeTable | Metadata | Data

  /** First block of a region, and the first block after it. */
  function Extent(nb: nat, r: Region): (nat, nat) {
    match r
    case SuperBlk => (SB_START, SB_START + 1)
    case MerkleRoot => (MT_START, MT_START + 1)
    case InodeBitmap => (IBM_START, IBM_START + NUM_IBITMAP_BLOCKS)
    case InodeTable => (ITAB_START, ITAB_START + NUM_ITAB_BLOCKS)
    case Metadata => (META_START, META_START + NumMeta(nb))
    case Data => (DataStart(nb), nb)
  }

  predicate Inside(nb: nat, r: Region, b: nat) {
    Extent(nb, r).0 <= b < Extent(nb, r).1
  }

  function RegionOf(nb: nat, b: nat): Region {
    if b == SB_START then SuperBlk
    else if b == MT_START then MerkleRoot
    else if b < ITAB_START then InodeBitmap
    else if b < META_START then InodeTable
    else if b < DataStart(nb) then Metadata
    else Data
  }

  /** The regions partition the blocks of the volume, every inode number and bit has its place, and
      NUM_DATA_BLOCKS counts the last region. */
  lemma Partition(nb: nat, b: nat, r: Region)
    requires DataStart(nb) <= nb && b < nb
    ensures Inside(nb, r, b) <==> r == RegionOf(nb, b)
    ensures Extent(nb, Data).1 - Extent(nb, Data).0 == nb - NUM_IBITMAP_BLOCKS - NUM_ITAB_BLOCKS - NumMeta(nb) - 1 - 1
  {
  }

  /** Inode i has its bit in the bitmap region and its record in the inode table, apart from others. */
  lemma InodePlaces(nb: nat, i: nat, j: nat)
    requires i < NUM_INODES && j < NUM_INODES && DataStart(nb) <= nb
    ensures Inside(nb, InodeBitmap, IBM_START + i / BLK_SZ_BITS)
    ensures Inside(nb, InodeTable, ITAB_START + i / NUM_INODES_PER_BLOCK)
    ensures (i % NUM_INODES_PER_BLOCK) * INODE_SZ + INODE_SZ <= BLK_SZ
    ensures i != j && i / NUM_INODES_PER_BLOCK == j / NUM_INODES_PER_BLOCK ==>
              || (i % NUM_INODES_PER_BLOCK) * INODE_SZ + INODE_SZ <= (j % NUM_INODES_PER_BLOCK) * INODE_SZ
              || (j % NUM_INODES_PER_BLOCK) * INODE_SZ + INODE_SZ <= (i % NUM_INODES_PER_BLOCK) * INODE_SZ
  {
  }

  /** The IV and MAC of block b have a place in the metadata region, within one of its blocks and apart from
      those of other blocks. */
  lemma MetaPlaces(nb: nat, b: nat, c: nat)
    requires b < nb && c < nb
    ensures Inside(nb, Metadata, META_START + b / (BLK_SZ / META_SZ))
    ensures (b % (BLK_SZ / META_SZ)) * META_SZ + META_SZ <= BLK_SZ
    ensures b != c && b / (BLK_SZ / META_SZ) == c / (BLK_SZ / META_SZ) ==>
              || (b % (BLK_SZ / META_SZ)) * META_SZ + META_SZ <= (c % (BLK_SZ / META_SZ)) * META_SZ
              || (c % (BLK_SZ / META_SZ)) * META_SZ + META_SZ <= (b % (BLK_SZ / META_SZ)) * META_SZ
  {
  }

  /** Consecutive block numbers. */
  function Upto(lo: nat, hi: nat): (s: seq<nat>)
    requires lo <= hi
    ensures |s| == hi - lo && forall k :: 0 <= k < |s| ==> s[k] == lo + k
  {
    seq(hi - lo, k => lo + k)
  }

  /** Every block outside the metadata region is written once, in increasing order, and none inside it. */
  lemma WrittenOnce(nb: nat, order: seq<nat>, b: nat)
    requires DataStart(nb) <= nb && order == Upto(0, META_START) + Upto(DataStart(nb), nb)
    ensures b in order <==> b < nb && RegionOf(nb, b) != Metadata
    ensures forall k, l :: 0 <= k < l < |order| ==> order[k] < order[l]
  {
    if b < META_START {
      assert order[b] == b;
    } else if DataStart(nb) <= b < nb {
      assert order[META_START + (b - DataStart(nb))] == b;
    }
  }

  // ---- the superblock ---------------------------------------------------------------

  const MAGIC: nat := 0xABCD_ABCD_ABCD_ABCD
  const IBITMAP_INO: nat := 4
  const ITABLE_INO: nat := 6
  const JOURNAL_INO: nat := 7
  const FORMATTED: nat := 3

  /** The fields mkfs serializes, in order. */
  function SuperFields(nb: nat): (vs: seq<nat>)
    requires DataStart(nb) < nb
    ensures |vs| == |Codec.SUPER_WIDTHS|
  {
    var ds := DataStart(nb);
    [MAGIC, BLK_SZ, INODE_SZ, nb, nb - ds, NUM_INODES, nb - ds, NUM_INODES - FIRST_UNRESERVED_INO, ds + 1, ds + 1,
     ROOT_INO, IBITMAP_INO, ITABLE_INO, JOURNAL_INO, FIRST_UNRESERVED_INO, FORMATTED]
  }

  /** What the file system uses of a superblock: its counters and the root's number. */
  datatype Super = Super(free: nat, next: nat, inoFree: nat, root: nat)

  function SuperOf(vs: seq<nat>): Super
    requires |vs| == |Codec.SUPER_WIDTHS|
  {
    Super(vs[6], vs[9], vs[7], vs[10])
  }

  /** SuperBlock::deserialize from the bytes of its block. */
  function ReadSuper(blk: DataBlk): Super {
    Codec.RecordSizes();
    SuperOf(Codec.Decode(Codec.SUPER_WIDTHS, blk[..Codec.Size(Codec.SUPER_WIDTHS)]))
  }

  /** SuperBlock::serialize into an empty block. */
  function SuperBytes(nb: nat): DataBlk
    requires DataStart(nb) < nb
  {
    Codec.RecordSizes();
    Codec.Patch(Codec.Zeros(BLK_SZ), 0, Codec.Encode(Codec.SUPER_WIDTHS, SuperFields(nb)))
  }

  lemma SuperKept(nb: nat)
    requires DataStart(nb) < nb < U64
    ensures ReadSuper(SuperBytes(nb)) == SuperOf(SuperFields(nb))
  {
    hide Codec.Decode, Codec.Encode, Codec.Size, Codec.Pow256;
    var ws, vs := Codec.SUPER_WIDTHS, SuperFields(nb);
    Codec.RecordSizes();
    EightBytes();
    assert Codec.Fits(ws, vs);
    Codec.RecordRoundTrip(ws, vs);
    assert SuperBytes(nb)[..Codec.Size(ws)] == Codec.Encode(ws, vs);
  }

  /** What the fields say: how many blocks there are and how many of them lie in the data region, all of these
      free; how many inodes there are and how many bits of the bitmap are clear; and the second data block, the
      first being the root's. */
  lemma SuperSays(nb: nat)
    requires DataStart(nb) < nb
    ensures var vs := SuperFields(nb);
            && (forall b :: Inside(nb, Data, b) ==> b < vs[3]) && Inside(nb, Data, vs[3] - 1)
            && vs[4] == vs[6] == Extent(nb, Data).1 - Extent(nb, Data).0
            && vs[5] == NUM_INODES && vs[7] == NUM_INODES - |SetBits(NewBits(), NUM_INODES)|
            && vs[8] == vs[9] && vs[8] - 1 == Extent(nb, Data).0
  {
    BitsBelow(NewBits(), FIRST_UNRESERVED_INO, NUM_INODES);
  }

  // ---- a formatted volume -----------------------------------------------------------

  /** The volume a mount sees. */
  ghost function Mounted(nb: nat, dk: Disk, sb: Super): Volume {
    Volume(DataStart(nb), nb, sb.free, sb.next, sb.inoFree, dk.bitmap, NodesOf(dk, DataStart(nb)), map[], START_FD)
  }

  /** What mount asserts of what it reads: the root's number, its inode, its first block, its two dots. */
  predicate Mountable(nb: nat, dk: Disk, sb: Super) {
    && sb.root == ROOT_INO && ROOT_INO in dk.itab && dk.itab[ROOT_INO].blks[0] == DataStart(nb)
    && DentsAt(dk, DataStart(nb))[0].name == "." && DentsAt(dk, DataStart(nb))[1].name == ".."
  }

  function RootInode(ds: nat): Inode {
    Inode(Dir, 1, 2, 0, seq(NUM_DIRECT_BLOCKS + 1, k => if k == 0 then ds else 0))
  }

  /** The disk mkfs leaves, seen at the block level. */
  function FormattedDisk(ds: nat): Disk {
    Disk(NewBits(), map[ROOT_INO := RootInode(ds)], map[], map[ds := DotRaw(ROOT_INO, ROOT_INO)])
  }

  lemma RootView(ds: nat)
    requires 1 <= ds
    ensures NodesOf(FormattedDisk(ds), ds) == map[ROOT_INO := DotDir(1, ROOT_INO, ROOT_INO, ds)]
  {
    hide DotRaw;
    var n := RootInode(ds).(refs := 0);
    NewDirView(FormattedDisk(ds), ds, ds, n.blks, ROOT_INO, ROOT_INO);
    CountsView(FormattedDisk(ds), ds, n, 1, 2);
  }

  /** What mkfs leaves is mounted as the new volume. */
  lemma Formatted(nb: nat)
    requires DataStart(nb) < nb
    ensures var dk, sb := FormattedDisk(DataStart(nb)), SuperOf(SuperFields(nb));
            && Mountable(nb, dk, sb) && Mounted(nb, dk, sb) == NewVolume(DataStart(nb), nb)
            && Inv(Mounted(nb, dk, sb))
            && forall p: Path :: Resolve(Mounted(nb, dk, sb).nodes, p).Some? <==> p == "/"
  {
    hide DotRaw, DotDir, Inv, Resolve, SlotsIn;
    var ds, dk := DataStart(nb), FormattedDisk(DataStart(nb));
    RootView(ds);
    DotsRead(ROOT_INO, ROOT_INO);
    assert DataAt(dk, ds) == DotRaw(ROOT_INO, ROOT_INO);
    NewInv(ds, nb);
    forall p: Path ensures Resolve(NewVolume(ds, nb).nodes, p).Some? <==> p == "/" {
      NothingNamed(ds, nb, p);
    }
  }
}
