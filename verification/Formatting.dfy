/** mkfs on a disk of bytes: the blocks it writes, their order, and what they represent. */
module Formatting {
  import opened Layout
  import opened Codec
  import opened Raw
  import opened NewVolumes
  import opened Blocks
  import opened Format
  import opened Image

  /** The record mkfs serializes for a reserved number: the root's, whose mode is 040777, or one that holds
      nothing but its number. */
  function ReservedFields(ds: nat, b: nat): (vs: seq<nat>)
    ensures |vs| == |INODE_WIDTHS|
  {
    if b == ROOT_INO then [ROOT_INO, 0, 0x41FF, 1, 0, 0, 0, 0, 2, ds] + Nothings(NUM_DIRECT_BLOCKS)
    else [b] + Nothings(21)
  }

  function Nothings(n: nat): (r: seq<nat>)
    ensures |r| == n && forall k :: 0 <= k < n ==> r[k] == 0
  {
    seq(n, _ => 0)
  }

  /** The first bitmap block with bits 0 to k - 1 set. */
  function BitsUpTo(k: nat): DataBlk
    requires k <= FIRST_UNRESERVED_INO
  {
    if k == 0 then Zeros(BLK_SZ) else PutBlkBit(BitsUpTo(k - 1), k - 1, true)
  }

  /** The first block of the inode table with the records 0 to k - 1. */
  function TableUpTo(ds: nat, k: nat): DataBlk
    requires k <= FIRST_UNRESERVED_INO
  {
    if k == 0 then Zeros(BLK_SZ)
    else
      RecordSizes();
      Patch(TableUpTo(ds, k - 1), TableOff(k - 1), Encode(INODE_WIDTHS, ReservedFields(ds, k - 1)))
  }

  /** What mkfs puts into block b. */
  function MkfsBlock(nb: nat, b: nat): DataBlk
    requires DataStart(nb) < nb
  {
    if b == SB_START then SuperBytes(nb)
    else if b == IBM_START then BitsUpTo(FIRST_UNRESERVED_INO)
    else if b == ITAB_START then TableUpTo(DataStart(nb), FIRST_UNRESERVED_INO)
    else if b == DataStart(nb) then DotRaw(ROOT_INO, ROOT_INO)
    else Zeros(BLK_SZ)
  }

  // ---- what those blocks decode to --------------------------------------------------

  lemma {:induction false} BitsSet(k: nat, c: nat)
    requires k <= FIRST_UNRESERVED_INO && c < BLK_SZ_BITS
    ensures BlkBit(BitsUpTo(k), c) <==> c < k
    decreases k
  {
    hide PutBlkBit;
    if k == 0 {
      ZeroBits(c % 8);
    } else {
      hide BlkBit;
      BitsSet(k - 1, c);
      BlkBitPut(BitsUpTo(k - 1), k - 1, true, c);
    }
  }

  lemma {:induction false} ZeroBits(k: nat)
    ensures !BitOf(0, k)
  {
    if k > 0 {
      ZeroBits(k - 1);
    }
  }

  lemma {:induction false} ZeroFields(ws: seq<nat>, s: seq<Byte>)
    requires |s| == Size(ws) && forall i :: 0 <= i < |s| ==> s[i] == 0
    ensures forall k :: 0 <= k < |ws| ==> Decode(ws, s)[k] == 0
  {
    if ws != [] {
      var n := |ws| - 1;
      var m := Size(ws[..n]);
      ZeroFields(ws[..n], s[..m]);
      assert s[m..] == Zeros(ws[n]);
      ZeroLe(ws[n]);
    }
  }

  lemma NoRecord(off: nat)
    requires off + INODE_SZ <= BLK_SZ
    ensures FromFields(RecordAt(Zeros(BLK_SZ), off)) == None
  {
    hide Decode, Size;
    RecordSizes();
    ZeroFields(INODE_WIDTHS, Zeros(BLK_SZ)[off..off + Size(INODE_WIDTHS)]);
  }

  lemma ReservedFit(ds: nat, b: nat)
    requires ds < U64 && b < FIRST_UNRESERVED_INO
    ensures Fits(INODE_WIDTHS, ReservedFields(ds, b))
  {
    EightBytes();
    assert Pow256(4) == 256 * (256 * (256 * 256)) by {
      assert Pow256(3) == 256 * Pow256(2) && Pow256(2) == 256 * Pow256(1) && Pow256(1) == 256;
    }
    hide Pow256;
    var vs := ReservedFields(ds, b);
    forall k | 0 <= k < |INODE_WIDTHS| ensures vs[k] < Pow256(INODE_WIDTHS[k]) {
      assert INODE_WIDTHS[k] == if k == 1 || k == 2 then 4 else 8;
    }
  }

  /** Record j of the table's first block, once the first k are written. */
  lemma {:induction false} TableRecords(ds: nat, k: nat, j: nat)
    requires ds < U64 && k <= FIRST_UNRESERVED_INO && j < NUM_INODES_PER_BLOCK
    ensures FromFields(RecordAt(TableUpTo(ds, k), j * INODE_SZ)) ==
            if j < k then FromFields(ReservedFields(ds, j)) else None
    decreases k
  {
    hide FromFields, Decode, Encode, Patch, Size, Fits, ReservedFields;
    RecordSizes();
    if k == 0 {
      NoRecord(j * INODE_SZ);
    } else {
      TableRecords(ds, k - 1, j);
      ReservedFit(ds, k - 1);
      InodeSlots(TableUpTo(ds, k - 1), k - 1, j, ReservedFields(ds, k - 1));
    }
  }

  lemma RootRecord(ds: nat)
    ensures FromFields(ReservedFields(ds, ROOT_INO)) == Some(RootInode(ds))
  {
    assert ReservedFields(ds, ROOT_INO)[9..] == RootInode(ds).blks;
  }

  /** The blocks of mkfs are the formatted disk. */
  lemma MkfsRepresents(nb: nat, img: Img)
    requires DataStart(nb) < nb < U64 && forall b: nat :: BlockAt(img, b) == MkfsBlock(nb, b)
    ensures Represents(img, FormattedDisk(DataStart(nb)), DataStart(nb), {})
    ensures ReadSuper(BlockAt(img, SB_START)) == SuperOf(SuperFields(nb))
  {
    hide ReadInode, BlkBit, BitsUpTo, TableUpTo, SuperBytes, DotRaw, ReadSuper;
    var ds := DataStart(nb);
    SuperKept(nb);
    forall i: nat | i < |NewBits()| ensures NewBits()[i] == BlkBit(BlockAt(img, BitBlk(i)), i % BLK_SZ_BITS) {
      BitsHere(nb, img, i);
    }
    forall i: nat | Used(i) ensures ReadInode(img, i) == if i == ROOT_INO then Some(RootInode(ds)) else None {
      RecordHere(nb, img, i);
    }
  }

  lemma BitsHere(nb: nat, img: Img, i: nat)
    requires DataStart(nb) < nb && i < NUM_IBITMAP_BLOCKS * BLK_SZ_BITS
    requires BlockAt(img, BitBlk(i)) == MkfsBlock(nb, BitBlk(i))
    ensures BlkBit(BlockAt(img, BitBlk(i)), i % BLK_SZ_BITS) <==> i < FIRST_UNRESERVED_INO
  {
    hide BlkBit;
    if i < BLK_SZ_BITS {
      BitsSet(FIRST_UNRESERVED_INO, i);
    } else {
      BitsSet(0, i % BLK_SZ_BITS);
      assert BitsUpTo(0) == Zeros(BLK_SZ);
    }
  }

  lemma RecordHere(nb: nat, img: Img, i: nat)
    requires DataStart(nb) < nb < U64 && Used(i) && BlockAt(img, TableBlk(i)) == MkfsBlock(nb, TableBlk(i))
    ensures ReadInode(img, i) == if i == ROOT_INO then Some(RootInode(DataStart(nb))) else None
  {
    hide FromFields, RecordAt, TableUpTo, ReservedFields;
    TableBelow(i);
    if i < NUM_INODES_PER_BLOCK {
      TableRecords(DataStart(nb), FIRST_UNRESERVED_INO, i);
      RootRecord(DataStart(nb));
    } else {
      NoRecord(TableOff(i));
    }
  }

  // ---- mkfs -------------------------------------------------------------------------

  /** Every block listed in `order` holds what mkfs puts there, and no other was written. */
  ghost predicate Laid(nb: nat, img: Img, order: seq<nat>)
    requires DataStart(nb) < nb
  {
    && (forall b: nat :: b in img <==> b in order)
    && (forall b: nat :: b in img ==> img[b] == MkfsBlock(nb, b))
  }

  /** One block written. */
  lemma LaidNext(nb: nat, img: Img, order: seq<nat>, b: nat, blk: DataBlk)
    requires DataStart(nb) < nb && Laid(nb, img, order) && blk == MkfsBlock(nb, b)
    ensures Laid(nb, img[b := blk], order + [b])
  {
    hide MkfsBlock;
  }

  /** Writing the zero block to the blocks from lo up to hi, one after the other. */
  method WriteEmpty(nb: nat, img0: Img, order0: seq<nat>, lo: nat, hi: nat) returns (img: Img, order: seq<nat>)
    requires DataStart(nb) < nb && lo <= hi && Laid(nb, img0, order0)
    requires forall b :: lo <= b < hi ==> MkfsBlock(nb, b) == Zeros(BLK_SZ)
    ensures Laid(nb, img, order) && order == order0 + Upto(lo, hi)
  {
    hide MkfsBlock, Laid;
    img, order := img0, order0;
    var b := lo;
    while b < hi
      invariant lo <= b <= hi && Laid(nb, img, order) && order == order0 + Upto(lo, b)
    {
      LaidNext(nb, img, order, b, Zeros(BLK_SZ));
      img, order := img[b := Zeros(BLK_SZ)], order + [b];
      b := b + 1;
    }
  }

  /** The two loops over the reserved numbers: their bits, then their records. */
  method Reserve(ds: nat) returns (bits: DataBlk, table: DataBlk)
    ensures bits == BitsUpTo(FIRST_UNRESERVED_INO) && table == TableUpTo(ds, FIRST_UNRESERVED_INO)
  {
    hide BitsUpTo, TableUpTo, PutBlkBit, ReservedFields, Encode, Patch, Size;
    bits, table := Zeros(BLK_SZ), Zeros(BLK_SZ);
    RecordSizes();
    UpToNone(ds);
    var b := 0;
    while b < FIRST_UNRESERVED_INO
      invariant b <= FIRST_UNRESERVED_INO && bits == BitsUpTo(b)
    {
      UpToNext(ds, b);
      bits := PutBlkBit(bits, b, true);
      b := b + 1;
    }
    b := 0;
    while b < FIRST_UNRESERVED_INO
      invariant b <= FIRST_UNRESERVED_INO && table == TableUpTo(ds, b)
    {
      UpToNext(ds, b);
      table := Patch(table, TableOff(b), Encode(INODE_WIDTHS, ReservedFields(ds, b)));
      b := b + 1;
    }
  }

  lemma UpToNone(ds: nat)
    ensures BitsUpTo(0) == Zeros(BLK_SZ) && TableUpTo(ds, 0) == Zeros(BLK_SZ)
  {
  }

  lemma UpToNext(ds: nat, k: nat)
    requires k < FIRST_UNRESERVED_INO
    ensures BitsUpTo(k + 1) == PutBlkBit(BitsUpTo(k), k, true)
    ensures Size(INODE_WIDTHS) <= INODE_SZ
    ensures TableUpTo(ds, k + 1) == Patch(TableUpTo(ds, k), TableOff(k), Encode(INODE_WIDTHS, ReservedFields(ds, k)))
  {
    hide PutBlkBit, ReservedFields, Encode, Patch, Size;
    RecordSizes();
  }

  /** mkfs: the blocks in the order in which they are written. The metadata blocks are passed over. What is on the
      disk then is the formatted volume, superblock, bitmap, records, dots and all. */
  method Mkfs(nb: nat) returns (img: Img, order: seq<nat>)
    requires DataStart(nb) < nb < U64
    ensures order == Upto(0, META_START) + Upto(DataStart(nb), nb)
    ensures Laid(nb, img, order)
    ensures Represents(img, FormattedDisk(DataStart(nb)), DataStart(nb), {})
    ensures ReadSuper(BlockAt(img, SB_START)) == SuperOf(SuperFields(nb))
  {
    hide BitsUpTo, TableUpTo, SuperBytes, DotRaw, Represents, ReadSuper, SuperFields, FormattedDisk, Laid;
    var ds := DataStart(nb);
    var bits, table := Reserve(ds);
    LaidNone(nb);
    img, order := map[], [];
    LaidNext(nb, img, order, SB_START, SuperBytes(nb));
    img, order := img[SB_START := SuperBytes(nb)], order + [SB_START];
    img, order := WriteEmpty(nb, img, order, MT_START, IBM_START);
    LaidNext(nb, img, order, IBM_START, bits);
    img, order := img[IBM_START := bits], order + [IBM_START];
    img, order := WriteEmpty(nb, img, order, IBM_START + 1, ITAB_START);
    LaidNext(nb, img, order, ITAB_START, table);
    img, order := img[ITAB_START := table], order + [ITAB_START];
    img, order := WriteEmpty(nb, img, order, ITAB_START + 1, META_START);
    assert order == Upto(0, META_START);
    LaidNext(nb, img, order, ds, DotRaw(ROOT_INO, ROOT_INO));
    img, order := img[ds := DotRaw(ROOT_INO, ROOT_INO)], order + [ds];
    img, order := WriteEmpty(nb, img, order, ds + 1, nb);
    assert order == Upto(0, META_START) + Upto(ds, nb);
    LaidAll(nb, img, order);
    MkfsRepresents(nb, img);
  }

  lemma LaidNone(nb: nat)
    requires DataStart(nb) < nb
    ensures Laid(nb, map[], [])
  {
  }

  /** Blocks that were passed over read as zeros. */
  lemma LaidAll(nb: nat, img: Img, order: seq<nat>)
    requires DataStart(nb) < nb && Laid(nb, img, order) && order == Upto(0, META_START) + Upto(DataStart(nb), nb)
    ensures forall b: nat :: BlockAt(img, b) == MkfsBlock(nb, b)
  {
    hide BitsUpTo, TableUpTo, SuperBytes, DotRaw;
    forall b: nat ensures BlockAt(img, b) == MkfsBlock(nb, b) {
      WrittenOnce(nb, order, b);
    }
  }
}
