/**
 The disk as nothing but blocks of bytes, and what the writes of single records do to it: each is one
 update of the inode bitmap, of the inode table, of the indirect lists or of the data blocks of the
 block level.
 */
module Image {
  import opened Layout
  import opened Directory
  import opened Codec
  import opened Raw
  import opened Volumes
  import opened Blocks
  import Format

  type Img = map<nat, DataBlk>

  function BlockAt(img: Img, b: nat): DataBlk {
    if b in img then img[b] else Zeros(BLK_SZ)
  }

  // ---- inode records ----------------------------------------------------------------

  /** The file type bits of a mode: directory, or anything else. */
  function KindOf(mode: nat): Kind {
    if mode / 0x1000 % 16 == 4 then Dir else Reg
  }

  /** The inode that the fields of a record describe: number, uid, mode, reference count, three times, size,
      link count, block ids. Number 0 marks a record that is not in use. */
  function FromFields(vs: seq<nat>): Option<Inode>
    requires |vs| == |INODE_WIDTHS|
  {
    if vs[0] == 0 then None else Some(Inode(KindOf(vs[2]), vs[3], vs[8], vs[7], vs[9..]))
  }

  /** Where the record of inode i lies. */
  function TableBlk(i: nat): nat {
    Format.ITAB_START + i / NUM_INODES_PER_BLOCK
  }

  function TableOff(i: nat): nat {
    i % NUM_INODES_PER_BLOCK * INODE_SZ
  }

  function RecordAt(blk: DataBlk, off: nat): (vs: seq<nat>)
    requires off + INODE_SZ <= BLK_SZ
    ensures |vs| == |INODE_WIDTHS|
  {
    RecordSizes();
    Decode(INODE_WIDTHS, blk[off..off + Size(INODE_WIDTHS)])
  }

  /** read_inode. */
  function ReadInode(img: Img, i: nat): Option<Inode> {
    FromFields(RecordAt(BlockAt(img, TableBlk(i)), TableOff(i)))
  }

  /** write_inode: the block is read, one record overwritten, the block written back. */
  function WriteInode(img: Img, i: nat, vs: seq<nat>): Img
    requires |vs| == |INODE_WIDTHS|
  {
    RecordSizes();
    img[TableBlk(i) := Patch(BlockAt(img, TableBlk(i)), TableOff(i), Encode(INODE_WIDTHS, vs))]
  }

  /** The inode written is the one read back, and every other inode stays as it was. */
  lemma InodeWritten(img: Img, i: nat, vs: seq<nat>, j: nat)
    requires Fits(INODE_WIDTHS, vs)
    ensures ReadInode(WriteInode(img, i, vs), j) == if j == i then FromFields(vs) else ReadInode(img, j)
  {
    hide FromFields, Decode, Encode, Patch, Fits, Size;
    RecordSizes();
    if TableBlk(i) == TableBlk(j) {
      SameSlot(i, j);
      InodeSlots(BlockAt(img, TableBlk(i)), i % NUM_INODES_PER_BLOCK, j % NUM_INODES_PER_BLOCK, vs);
    }
  }

  lemma SameSlot(i: nat, j: nat)
    requires i / NUM_INODES_PER_BLOCK == j / NUM_INODES_PER_BLOCK
    ensures i % NUM_INODES_PER_BLOCK == j % NUM_INODES_PER_BLOCK <==> i == j
  {
  }

  // ---- indirect lists ---------------------------------------------------------------

  function ListAt(blk: DataBlk): (ids: IdBlk) {
    RecordSizes();
    Decode(INDIRECT_WIDTHS, blk)
  }

  function ListBytes(ids: IdBlk): DataBlk {
    RecordSizes();
    Encode(INDIRECT_WIDTHS, ids)
  }

  lemma ListKept(ids: IdBlk)
    requires forall k :: 0 <= k < |ids| ==> ids[k] < U64
    ensures ListAt(ListBytes(ids)) == ids
  {
    hide Decode, Encode, Pow256, Size;
    RecordSizes();
    EightBytes();
    Codec.RecordRoundTrip(INDIRECT_WIDTHS, ids);
  }

  // ---- the inode bitmap -------------------------------------------------------------

  function Two(m: nat): (r: nat)
    ensures r >= 1
  {
    if m == 0 then 1 else 2 * Two(m - 1)
  }

  /** bfs_test_bit within one byte. */
  predicate BitOf(y: nat, k: nat) {
    if k == 0 then y % 2 == 1 else BitOf(y / 2, k - 1)
  }

  /** bfs_set_bit and bfs_clear_bit within one byte. */
  function PutBit(y: nat, k: nat, on: bool): (r: nat) {
    if k == 0 then y - y % 2 + if on then 1 else 0 else 2 * PutBit(y / 2, k - 1, on) + y % 2
  }

  lemma {:induction false} BitPut(y: nat, k: nat, on: bool, j: nat)
    ensures BitOf(PutBit(y, k, on), j) == if j == k then on else BitOf(y, j)
  {
    if k > 0 && j > 0 {
      BitPut(y / 2, k - 1, on, j - 1);
      assert PutBit(y, k, on) / 2 == PutBit(y / 2, k - 1, on);
    }
  }

  /** A byte stays a byte. */
  lemma {:induction false} PutBelow(y: nat, k: nat, on: bool, m: nat)
    requires y < Two(m) && k < m
    ensures PutBit(y, k, on) < Two(m)
  {
    assert Two(m) == 2 * Two(m - 1);
    hide Two;
    if k > 0 {
      PutBelow(y / 2, k - 1, on, m - 1);
      assert PutBit(y, k, on) <= 2 * PutBit(y / 2, k - 1, on) + 1;
    }
  }

  lemma EightBits()
    ensures Two(8) == 256
  {
    assert Two(4) == 2 * Two(3) == 4 * Two(2) == 16;
    assert Two(8) == 2 * Two(7) == 4 * Two(6) == 8 * Two(5);
  }

  /** Bit b of a bitmap block. */
  predicate BlkBit(blk: DataBlk, b: nat)
    requires b < BLK_SZ_BITS
  {
    BitOf(blk[b / 8], b % 8)
  }

  function PutBlkBit(blk: DataBlk, b: nat, on: bool): DataBlk
    requires b < BLK_SZ_BITS
  {
    EightBits();
    PutBelow(blk[b / 8], b % 8, on, 8);
    blk[b / 8 := PutBit(blk[b / 8], b % 8, on)]
  }

  lemma BlkBitPut(blk: DataBlk, b: nat, on: bool, c: nat)
    requires b < BLK_SZ_BITS && c < BLK_SZ_BITS
    ensures BlkBit(PutBlkBit(blk, b, on), c) == if c == b then on else BlkBit(blk, c)
  {
    hide BitOf, PutBit;
    BitPut(blk[b / 8], b % 8, on, c % 8);
    assert b / 8 == c / 8 && b % 8 == c % 8 ==> b == c;
  }

  /** The block that holds the bit of inode i, and its place there. */
  function BitBlk(i: nat): nat {
    Format.IBM_START + i / BLK_SZ_BITS
  }

  /** The bitmap blocks hold these bits. */
  ghost predicate Bitmapped(img: Img, bits: Bits) {
    forall i: nat :: i < |bits| ==> bits[i] == BlkBit(BlockAt(img, BitBlk(i)), i % BLK_SZ_BITS)
  }

  // ---- the whole disk ---------------------------------------------------------------

  /** Numbers whose records count: the root's and the unreserved ones. mkfs writes records for the other
      reserved numbers too, which nothing reads. */
  predicate Used(i: nat) {
    i == ROOT_INO || FIRST_UNRESERVED_INO <= i < NUM_INODES
  }

  /** The bytes of img are the block-level disk dk: the bitmap and the inode table in their regions, and in the
      data region from ds on the blocks in `lists` as indirect lists and all others as data. */
  ghost predicate Represents(img: Img, dk: Disk, ds: nat, lists: set<nat>) {
    && Bitmapped(img, dk.bitmap)
    && (forall i: nat :: Used(i) ==> ReadInode(img, i) == if i in dk.itab then Some(dk.itab[i]) else None)
    && (forall i :: i in dk.itab ==> Used(i))
    && (forall b: nat :: b in lists ==> b >= ds && ListAt(BlockAt(img, b)) == IdsAt(dk, b))
    && (forall b: nat :: b >= ds && b !in lists ==> BlockAt(img, b) == DataAt(dk, b))
  }

  /** Setting or clearing the bit of inode i: the block is read, one bit changed, the block written back. */
  lemma BitStored(img: Img, dk: Disk, ds: nat, lists: set<nat>, i: nat, on: bool)
    requires Represents(img, dk, ds, lists) && ds >= Format.META_START && i < |dk.bitmap|
    ensures var img' := img[BitBlk(i) := PutBlkBit(BlockAt(img, BitBlk(i)), i % BLK_SZ_BITS, on)];
            Represents(img', dk.(bitmap := dk.bitmap[i := on]), ds, lists)
  {
    hide ReadInode, ListAt, BlkBit, PutBlkBit;
    var img' := img[BitBlk(i) := PutBlkBit(BlockAt(img, BitBlk(i)), i % BLK_SZ_BITS, on)];
    forall j: nat | j < |dk.bitmap|
      ensures BlkBit(BlockAt(img', BitBlk(j)), j % BLK_SZ_BITS) == dk.bitmap[i := on][j]
    {
      if BitBlk(j) == BitBlk(i) {
        BlkBitPut(BlockAt(img, BitBlk(i)), i % BLK_SZ_BITS, on, j % BLK_SZ_BITS);
        SameBit(i, j);
      }
    }
    forall j: nat | Used(j) ensures ReadInode(img', j) == ReadInode(img, j) {
      OtherRegion(img, BitBlk(i), img'[BitBlk(i)], j);
    }
  }

  lemma SameBit(i: nat, j: nat)
    requires i / BLK_SZ_BITS == j / BLK_SZ_BITS
    ensures i % BLK_SZ_BITS == j % BLK_SZ_BITS <==> i == j
  {
  }

  /** A write outside the inode table leaves the inodes. */
  lemma OtherRegion(img: Img, b: nat, blk: DataBlk, i: nat)
    requires i < NUM_INODES && (b < Format.ITAB_START || b >= Format.META_START)
    ensures ReadInode(img[b := blk], i) == ReadInode(img, i)
  {
    TableBelow(i);
  }

  /** A write outside the bitmap leaves the bits. */
  lemma BitsStay(img: Img, b: nat, blk: DataBlk, bits: Bits)
    requires Bitmapped(img, bits) && b >= Format.ITAB_START
    ensures Bitmapped(img[b := blk], bits)
  {
    hide BlkBit;
    forall i: nat | i < |bits| ensures BlockAt(img[b := blk], BitBlk(i)) == BlockAt(img, BitBlk(i)) {
    }
  }

  /** Writing a record that describes inode n as number i is the update of the table at i, and writing a
      record with number 0 in its place takes i out of the table. */
  lemma InodeStored(img: Img, dk: Disk, ds: nat, lists: set<nat>, i: nat, vs: seq<nat>)
    requires Represents(img, dk, ds, lists) && ds >= Format.META_START && Used(i) && Fits(INODE_WIDTHS, vs)
    ensures var n := FromFields(vs);
            var table := if n.Some? then dk.itab[i := n.value] else dk.itab - {i};
            Represents(WriteInode(img, i, vs), dk.(itab := table), ds, lists)
  {
    hide FromFields, Decode, Encode, Patch, Pow256, Size, ReadInode, ListAt, Bitmapped;
    var img' := WriteInode(img, i, vs);
    BitsStay(img, TableBlk(i), img'[TableBlk(i)], dk.bitmap);
    forall j: nat | Used(j) ensures ReadInode(img', j) == if j == i then FromFields(vs) else ReadInode(img, j) {
      InodeWritten(img, i, vs, j);
    }
    TableBelow(i);
    forall b: nat | b >= ds ensures BlockAt(img', b) == BlockAt(img, b) {
    }
  }

  lemma TableBelow(i: nat)
    requires i < NUM_INODES
    ensures TableBlk(i) < Format.META_START
  {
  }

  /** Writing a data block. */
  lemma DataStored(img: Img, dk: Disk, ds: nat, lists: set<nat>, b: nat, blk: DataBlk)
    requires Represents(img, dk, ds, lists) && ds >= Format.META_START && b >= ds && b !in lists
    ensures Represents(img[b := blk], dk.(data := dk.data[b := blk]), ds, lists)
  {
    hide ReadInode, ListAt, Bitmapped;
    BitsStay(img, b, blk, dk.bitmap);
    forall i: nat | Used(i) ensures ReadInode(img[b := blk], i) == ReadInode(img, i) {
      OtherRegion(img, b, blk, i);
    }
  }

  /** Writing one dentry: the block is read, its record overwritten, the block written back. What is read as
      dentries afterwards is what was there with that one slot replaced. */
  lemma DentryStored(img: Img, dk: Disk, ds: nat, lists: set<nat>, b: nat, x: nat, de: Dentry)
    requires Represents(img, dk, ds, lists) && ds >= Format.META_START && b >= ds && b !in lists
    requires x < NUM_DIRENTS_PER_BLOCK && Storable(de)
    ensures var img' := img[b := Patch(BlockAt(img, b), x * DIRENT_SZ, EncodeDentry(de.ino, NameBytes(de.name)))];
            var dk' := dk.(data := dk.data[b := PutRecord(DataAt(dk, b), x, de)]);
            Represents(img', dk', ds, lists) && DentsAt(dk', b) == DentsAt(dk, b)[x := de]
  {
    hide Represents, Patch, EncodeDentry, SlotsIn;
    assert BlockAt(img, b) == DataAt(dk, b) by { DataIs(img, dk, ds, lists, b); }
    assert SlotAt(x) == x * DIRENT_SZ;
    assert de.name[..|de.name|] == de.name;
    DataStored(img, dk, ds, lists, b, PutRecord(DataAt(dk, b), x, de));
    PutSlot(DataAt(dk, b), x, de);
  }

  lemma DataIs(img: Img, dk: Disk, ds: nat, lists: set<nat>, b: nat)
    requires Represents(img, dk, ds, lists) && b >= ds && b !in lists
    ensures BlockAt(img, b) == DataAt(dk, b)
  {
  }

  /** Writing an indirect block, an old or a new one. */
  lemma ListStored(img: Img, dk: Disk, ds: nat, lists: set<nat>, b: nat, ids: IdBlk)
    requires Represents(img, dk, ds, lists) && ds >= Format.META_START && b >= ds
    requires forall k :: 0 <= k < |ids| ==> ids[k] < U64
    ensures Represents(img[b := ListBytes(ids)], dk.(ids := dk.ids[b := ids]), ds, lists + {b})
  {
    hide ReadInode, ListAt, ListBytes, Bitmapped;
    ListKept(ids);
    BitsStay(img, b, ListBytes(ids), dk.bitmap);
    forall i: nat | Used(i) ensures ReadInode(img[b := ListBytes(ids)], i) == ReadInode(img, i) {
      OtherRegion(img, b, ListBytes(ids), i);
    }
  }
}
