/**
 A directory's blocks as bytes: fifteen dentry records to a block, then unused bytes. Dentry
 writes patch these bytes and lookups decode them, so that bytes put there by other means are
 read as dentries too.
 */
module Raw {
  import opened Layout
  import opened Paths
  import opened Directory
  import opened Codec

  /** What a dentry record can hold. */
  predicate Storable(de: Dentry) {
    |de.name| + 1 <= MAX_FILE_NAME_LEN && Plain(de.name) && de.ino < U64
  }

  function NameBytes(name: string): (r: seq<Byte>)
    ensures |r| == |name|
  {
    seq(|name|, i requires 0 <= i < |name| => name[i] as int % 256)
  }

  function BytesName(bs: seq<Byte>): (r: string)
    ensures |r| == |bs|
  {
    seq(|bs|, i requires 0 <= i < |bs| => bs[i] as char)
  }

  /** DirEntry::serialize into one slot; longer names are turned away before they get here. */
  function ToRecord(de: Dentry): (r: seq<Byte>)
    ensures |r| == DIRENT_SZ
  {
    EncodeDentry(de.ino, NameBytes(de.name[..Min(|de.name|, MAX_FILE_NAME_LEN - 1)]))
  }

  /** DirEntry::deserialize from one slot. */
  function FromRecord(s: seq<Byte>): Dentry
    requires |s| == DIRENT_SZ
  {
    var d := DecodeDentry(s);
    Dentry(BytesName(d.1), d.0)
  }

  lemma EightBytes()
    ensures Pow256(8) == U64
  {
    assert Pow256(2) == 256 * Pow256(1) == 65536;
    assert Pow256(4) == 256 * Pow256(3) == 256 * (256 * Pow256(2));
    assert Pow256(6) == 256 * Pow256(5) == 256 * (256 * Pow256(4));
    assert Pow256(8) == 256 * Pow256(7) == 256 * (256 * Pow256(6));
  }

  lemma DentryKept(de: Dentry)
    requires Storable(de)
    ensures FromRecord(ToRecord(de)) == de
  {
    hide Pow256, EncodeDentry, DecodeDentry;
    var bs := NameBytes(de.name);
    assert de.name[..|de.name|] == de.name;
    EightBytes();
    assert forall i :: 0 <= i < |bs| ==> bs[i] != 0;
    DentryRoundTrip(de.ino, bs);
    assert BytesName(bs) == de.name;
  }

  /** Where the record of slot j lies. */
  function SlotAt(j: nat): nat {
    j / NUM_DIRENTS_PER_BLOCK * BLK_SZ + j % NUM_DIRENTS_PER_BLOCK * DIRENT_SZ
  }

  lemma SlotAtBlock(k: nat, x: nat)
    requires x < NUM_DIRENTS_PER_BLOCK
    ensures SlotAt(k * NUM_DIRENTS_PER_BLOCK + x) == k * BLK_SZ + x * DIRENT_SZ && SlotAt(x) == x * DIRENT_SZ
    ensures x * DIRENT_SZ + DIRENT_SZ <= BLK_SZ
  {
  }

  /** The dentry in slot j of blocks of bytes. */
  function SlotIn(raw: seq<Byte>, j: nat): Dentry {
    if SlotAt(j) + DIRENT_SZ <= |raw| then FromRecord(raw[SlotAt(j)..SlotAt(j) + DIRENT_SZ]) else EMPTY
  }

  /** The dentries that whole blocks of bytes hold. */
  function SlotsIn(raw: seq<Byte>): (r: seq<Dentry>)
    ensures |r| == |raw| / BLK_SZ * NUM_DIRENTS_PER_BLOCK
  {
    seq(|raw| / BLK_SZ * NUM_DIRENTS_PER_BLOCK, j requires 0 <= j => SlotIn(raw, j))
  }

  lemma SlotFits(raw: seq<Byte>, j: nat)
    requires j < |raw| / BLK_SZ * NUM_DIRENTS_PER_BLOCK
    ensures SlotAt(j) + DIRENT_SZ <= |raw|
  {
    var k := j / NUM_DIRENTS_PER_BLOCK;
    assert k < |raw| / BLK_SZ;
  }

  /** The bytes with slot j overwritten by the record of de. */
  function PutRecord(raw: seq<Byte>, j: nat, de: Dentry): (r: seq<Byte>)
    ensures |r| == |raw|
  {
    if SlotAt(j) + DIRENT_SZ <= |raw| then Patch(raw, SlotAt(j), ToRecord(de)) else raw
  }

  lemma PutAt(raw: seq<Byte>, j: nat, de: Dentry, i: nat)
    requires i < |raw| && SlotAt(j) + DIRENT_SZ <= |raw|
    ensures var at := SlotAt(j);
            PutRecord(raw, j, de)[i] == if at <= i < at + DIRENT_SZ then ToRecord(de)[i - at] else raw[i]
  {
    hide ToRecord, SlotAt;
  }

  /** The bytes of a block that was just allocated for the one dentry de. */
  function NewRaw(de: Dentry): (r: seq<Byte>)
    ensures |r| == BLK_SZ
  {
    PutRecord(Zeros(BLK_SZ), 0, de)
  }

  /** The bytes of a new directory's block. */
  function DotRaw(self: nat, parent: nat): (r: seq<Byte>)
    ensures |r| == BLK_SZ
  {
    PutRecord(PutRecord(Zeros(BLK_SZ), 0, Dentry(".", self)), 1, Dentry("..", parent))
  }

  /** A record written is the dentry read back from its slot; all other slots stay. */
  lemma PutSlot(raw: seq<Byte>, j: nat, de: Dentry)
    requires j < |raw| / BLK_SZ * NUM_DIRENTS_PER_BLOCK && Storable(de)
    ensures SlotsIn(PutRecord(raw, j, de)) == SlotsIn(raw)[j := de]
  {
    hide FromRecord, ToRecord;
    SlotFits(raw, j);
    DentryKept(de);
    var r := PutRecord(raw, j, de);
    forall l | 0 <= l < |SlotsIn(raw)| ensures SlotsIn(r)[l] == SlotsIn(raw)[j := de][l] {
      SlotFits(raw, l);
      if l == j {
        assert r[SlotAt(l)..SlotAt(l) + DIRENT_SZ] == ToRecord(de);
      } else {
        SlotsApart(j, l);
        assert r[SlotAt(l)..SlotAt(l) + DIRENT_SZ] == raw[SlotAt(l)..SlotAt(l) + DIRENT_SZ];
      }
    }
  }

  lemma SlotsApart(j: nat, l: nat)
    requires j != l
    ensures SlotAt(j) + DIRENT_SZ <= SlotAt(l) || SlotAt(l) + DIRENT_SZ <= SlotAt(j)
  {
  }

  /** Bytes never written hold no dentry. */
  lemma ZeroRecord()
    ensures FromRecord(Zeros(DIRENT_SZ)) == EMPTY
  {
    ZeroLe(8);
    assert Zeros(DIRENT_SZ)[..8] == Zeros(8);
  }

  lemma {:induction false} ZeroLe(w: nat)
    ensures FromLe(Zeros(w)) == 0
  {
    if w > 0 {
      assert Zeros(w)[1..] == Zeros(w - 1);
      ZeroLe(w - 1);
    }
  }

  lemma ZeroSlots(raw: seq<Byte>, j: nat)
    requires j < |raw| / BLK_SZ * NUM_DIRENTS_PER_BLOCK
    requires forall i :: SlotAt(j) <= i < SlotAt(j) + DIRENT_SZ && i < |raw| ==> raw[i] == 0
    ensures SlotsIn(raw)[j] == EMPTY
  {
    hide FromRecord;
    SlotFits(raw, j);
    ZeroRecord();
    assert raw[SlotAt(j)..SlotAt(j) + DIRENT_SZ] == Zeros(DIRENT_SZ);
  }

  lemma NewSlots(de: Dentry)
    requires Storable(de)
    ensures SlotsIn(NewRaw(de)) == NewBlock(de)
  {
    hide PutRecord;
    BlankSlots();
    PutSlot(Zeros(BLK_SZ), 0, de);
  }

  lemma BlankSlots()
    ensures SlotsIn(Zeros(BLK_SZ)) == seq(NUM_DIRENTS_PER_BLOCK, _ => EMPTY)
  {
    hide SlotsIn;
    forall j: nat | j < NUM_DIRENTS_PER_BLOCK ensures SlotsIn(Zeros(BLK_SZ))[j] == EMPTY {
      ZeroSlots(Zeros(BLK_SZ), j);
    }
  }

  /** Whole blocks put after one another hold the dentries of both. */
  lemma SlotsJoin(a: seq<Byte>, b: seq<Byte>)
    requires |a| % BLK_SZ == 0
    ensures SlotsIn(a + b) == SlotsIn(a) + SlotsIn(b)
  {
    hide SlotIn;
    var k := |a| / BLK_SZ;
    var m := k * NUM_DIRENTS_PER_BLOCK;
    assert |a + b| / BLK_SZ == k + |b| / BLK_SZ;
    forall j: nat | j < |SlotsIn(a + b)| ensures SlotsIn(a + b)[j] == (SlotsIn(a) + SlotsIn(b))[j] {
      if j < m {
        SlotFits(a, j);
        FrontSlot(a, b, j);
      } else {
        SlotFits(b, j - m);
        BackSlot(a, b, k, j - m);
      }
    }
  }

  lemma FrontSlot(a: seq<Byte>, b: seq<Byte>, j: nat)
    requires SlotAt(j) + DIRENT_SZ <= |a|
    ensures SlotIn(a + b, j) == SlotIn(a, j)
  {
    hide FromRecord, SlotAt;
    var at := SlotAt(j);
    assert (a + b)[at..at + DIRENT_SZ] == a[at..at + DIRENT_SZ];
  }

  lemma BackSlot(a: seq<Byte>, b: seq<Byte>, k: nat, x: nat)
    requires |a| == k * BLK_SZ && SlotAt(x) + DIRENT_SZ <= |b|
    ensures SlotIn(a + b, k * NUM_DIRENTS_PER_BLOCK + x) == SlotIn(b, x)
  {
    SlotShift(k, x);
    hide FromRecord, SlotAt;
    var at := SlotAt(x);
    assert (a + b)[|a| + at..|a| + at + DIRENT_SZ] == b[at..at + DIRENT_SZ];
  }

  lemma SlotShift(k: nat, x: nat)
    ensures SlotAt(k * NUM_DIRENTS_PER_BLOCK + x) == k * BLK_SZ + SlotAt(x)
  {
  }
}
