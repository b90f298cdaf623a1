/**
 bfs_write through the handle of a directory. Nothing in the code stops it: the bytes land in the
 directory's own blocks and are read as dentries from then on.
 */
module DirWrites {
  import opened Layout
  import opened Directory
  import opened Raw
  import opened Volumes
  import opened Invariants
  import opened Growth
  import opened HandleOps

  /** The dentries s could stand in directory i: they are as many as its link count says, and their
      names and inodes suit it and the rest of the volume. */
  ghost predicate Fitting(v: Volume, i: nat, s: seq<Dentry>)
    requires i in v.nodes
  {
    && Clean(s) && DotsFirst(s) && DistinctNames(s)
    && v.nodes[i].links == |LiveSet(s)|
    && Named(v.nodes[i := v.nodes[i].(slots := s)], v.nodes.Keys)
  }

  /** The request goes to a regular file, or the dentries it leaves in the directory fit. */
  ghost predicate Harmless(v: Volume, i: nat, data: seq<Byte>, off: nat)
    requires i in v.nodes
  {
    v.nodes[i].kind == Dir ==> Fitting(v, i, SlotsLeft(v.nodes[i], data, off))
  }

  /** The same of a request, through whatever handle. */
  ghost predicate HarmlessVia(v: Volume, fh: nat, data: seq<Byte>, off: nat) {
    fh in v.open && v.open[fh] in v.nodes ==> Harmless(v, v.open[fh], data, off)
  }

  /** Every inode of a sound volume has its blocks, each its own: a regular file all that a file can
      have, a directory those of its dentries. */
  lemma BlocksApart(v: Volume, i: nat)
    requires Sound(v) && i in v.nodes
    ensures var n := v.nodes[i];
            && 1 <= v.ds < v.next && NodeOk(n, v.ds) && OnDevice(n, v.ds, v.nb) && Apart(n.own, v.ds, v.next)
  {
    hide Named, Marked, NodeOk, OnDevice, DirOk;
    var n := v.nodes[i];
    OldIds(v, i);
    forall k, l | 0 <= k < l < OWN_LEN && n.own[k] >= v.ds ensures n.own[k] != n.own[l] {
      assert Holds(v.nodes, n.own[k], i, k) && Holds(v.nodes, n.own[l], i, l);
    }
  }

  lemma DirShape(v: Volume, i: nat)
    requires Sound(v) && i in v.nodes && v.nodes[i].kind == Dir
    ensures var n := v.nodes[i];
            && DirOk(n, v.ds) && OnDevice(n, v.ds, v.nb) && BlocksOf(n) == |n.slots| / NUM_DIRENTS_PER_BLOCK
            && |n.bytes| == BlocksOf(n) * BLK_SZ && Mapped(n.own, v.ds, BlocksOf(n)) && Apart(n.own, v.ds, v.next)
            && 1 <= v.ds < v.next
  {
    hide Sound, Apart, OnDevice, Clean, DotsFirst, DistinctNames, LiveSet;
    BlocksApart(v, i);
  }

  lemma RegShape(v: Volume, i: nat)
    requires Sound(v) && i in v.nodes && v.nodes[i].kind == Reg
    ensures var n := v.nodes[i];
            && RegOk(n, v.ds) && OnDevice(n, v.ds, v.nb) && 1 <= v.ds < v.next
            && Mapped(n.own, v.ds, MAX_FILE_BLKS) && Apart(n.own, v.ds, v.next)
  {
    hide Sound, Apart, OnDevice;
    BlocksApart(v, i);
  }

  /** Blocks, bytes and size of the directory a write leaves are in order, whatever they spell. */
  lemma LeftShape(v: Volume, i: nat, data: seq<Byte>, off: nat)
    requires Sound(v) && i in v.nodes && v.nodes[i].kind == Dir
    ensures var n, c := v.nodes[i], Staying(v.nodes[i], off + |data|);
            var m := DirWritten(n, v.next, data, off);
            && m == n.(slots := SlotsLeft(n, data, off), bytes := m.bytes, own := m.own, dirSize := m.dirSize)
            && |m.slots| == c * NUM_DIRENTS_PER_BLOCK && Spells(m)
            && m.dirSize <= |m.bytes| == c * BLK_SZ && Mapped(m.own, v.ds, c)
            && Apart(m.own, v.ds, v.next + Needed(BlocksOf(n), BlocksTo(BlocksOf(n), off + |data|)))
  {
    hide Sound, SlotsIn, SlotIn, GrowTo, Spells;
    DirShape(v, i);
    var n, c := v.nodes[i], Staying(v.nodes[i], off + |data|);
    GrowToShape(n.own, v.ds, BlocksOf(n), c, v.next);
    SpellsAll(DirWritten(n, v.next, data, off));
  }

  lemma NamedSlots(nodes: Nodes, keys: set<nat>, i: nat, a: Node, b: Node)
    requires a.kind == b.kind && a.slots == b.slots && Named(nodes[i := a], keys)
    ensures Named(nodes[i := b], keys)
  {
    var x, y := nodes[i := a], nodes[i := b];
    forall d, j: nat | Names(y, d, j) ensures Names(x, d, j) && y[d].slots == x[d].slots {
    }
  }

  /** The new directory is well formed exactly when its dentries fit. */
  lemma FittingOk(v: Volume, i: nat, data: seq<Byte>, off: nat)
    requires Sound(v) && i in v.nodes && v.nodes[i].kind == Dir
    ensures var m := DirWritten(v.nodes[i], v.next, data, off);
            Fitting(v, i, m.slots) <==> DirOk(m, v.ds) && Named(v.nodes[i := m], v.nodes.Keys)
  {
    hide Sound, Named, LiveSet, DistinctNames, DotsFirst, Clean, DirWritten, SlotsLeft, Spells;
    var n := v.nodes[i];
    var m := DirWritten(n, v.next, data, off);
    DirShape(v, i);
    LeftShape(v, i, data, off);
    if Named(v.nodes[i := m], v.nodes.Keys) {
      NamedSlots(v.nodes, v.nodes.Keys, i, m, n.(slots := m.slots));
    }
    if Named(v.nodes[i := n.(slots := m.slots)], v.nodes.Keys) {
      NamedSlots(v.nodes, v.nodes.Keys, i, n.(slots := m.slots), m);
    }
  }

  /** Ids the directory has after the write: its old ones, and new ones that are on a device. */
  lemma LeftIds(v: Volume, i: nat, data: seq<Byte>, off: nat)
    requires Sound(v) && i in v.nodes && v.nodes[i].kind == Dir && Min(off, v.nodes[i].dirSize) < off + |data|
    requires var n := v.nodes[i];
             Affordable(n.own, v.free, v.next, v.nb, BlocksOf(n), Min(off, n.dirSize), off + |data|)
    ensures var n, m := v.nodes[i], DirWritten(v.nodes[i], v.next, data, off);
            var used := Needed(BlocksOf(n), BlocksTo(BlocksOf(n), off + |data|));
            && used <= v.free && OnDevice(m, v.ds, v.nb)
            && (forall k :: 0 <= k < OWN_LEN ==> m.own[k] == n.own[k] || v.next <= m.own[k] < v.next + used)
  {
    hide Sound, SlotsLeft, GrowTo, DirOk;
    DirShape(v, i);
    var n := v.nodes[i];
    GrowToShape(n.own, v.ds, BlocksOf(n), Staying(n, off + |data|), v.next);
  }

  /** Blocks handed out and perhaps lost: ownership and the free count stay in order. */
  lemma GrownSound(v: Volume, i: nat, m: Node, used: nat)
    requires Sound(v) && i in v.nodes && v.nodes[i].kind == Dir && m.kind == Dir && used <= v.free
    requires DirOk(m, v.ds) && OnDevice(m, v.ds, v.nb) && Named(v.nodes[i := m], v.nodes.Keys)
    requires forall k :: 0 <= k < OWN_LEN ==> m.own[k] == v.nodes[i].own[k] || v.next <= m.own[k] < v.next + used
    requires Apart(m.own, v.ds, v.next + used)
    ensures Sound(v.(free := v.free - used, next := v.next + used, nodes := v.nodes[i := m]))
  {
    hide DirOk, OnDevice, Named, Marked;
    OwnedUpdate(v.nodes, v.ds, v.next, v.next + used, i, m);
    assert NodesOk(v.nodes[i := m], v.ds, v.nb) by { NodesOkUpdate(v.nodes, v.ds, v.nb, i, m); }
    assert v.nodes[i := m].Keys == v.nodes.Keys;
  }

  lemma WriteDirSoundIff(v: Volume, i: nat, data: seq<Byte>, off: nat)
    requires Sound(v) && i in v.nodes && v.nodes[i].kind == Dir && Min(off, v.nodes[i].dirSize) < off + |data|
    requires WriteDir(v, i, data, off).Ok?
    ensures Sound(WriteDir(v, i, data, off).vol) <==> Fitting(v, i, SlotsLeft(v.nodes[i], data, off))
  {
    hide Named, Marked, Owned, Counted, Fitting, SlotsLeft, OnDevice, LiveSet, GrowTo, Affordable;
    var n, m := v.nodes[i], DirWritten(v.nodes[i], v.next, data, off);
    var w := WriteDir(v, i, data, off).vol;
    FittingOk(v, i, data, off);
    LeftShape(v, i, data, off);
    LeftIds(v, i, data, off);
    hide DirWritten;
    assert w.nodes == v.nodes[i := m] && w.nodes.Keys == v.nodes.Keys;
    if Sound(w) {
      assert NodeOk(w.nodes[i], v.ds);
    } else if Fitting(v, i, m.slots) {
      GrownSound(v, i, m, Needed(BlocksOf(n), BlocksTo(BlocksOf(n), off + |data|)));
    }
  }

  /** Bytes that are there already leave the dentries as they are. In particular nothing at all does,
      within the recorded size. */
  lemma SameBytes(v: Volume, i: nat, data: seq<Byte>, off: nat)
    requires Sound(v) && i in v.nodes && v.nodes[i].kind == Dir
    requires off <= v.nodes[i].dirSize && off + |data| <= |v.nodes[i].bytes|
    requires v.nodes[i].bytes[off..off + |data|] == data
    ensures SlotsLeft(v.nodes[i], data, off) == v.nodes[i].slots && RawLeft(v.nodes[i], data, off) == v.nodes[i].bytes
    ensures BlocksTo(BlocksOf(v.nodes[i]), off + |data|) == BlocksOf(v.nodes[i])
    ensures Harmless(v, i, data, off)
  {
    hide Sound, SlotsIn, SlotIn, Spells, RawLeft, Fitting;
    DirShape(v, i);
    var n := v.nodes[i];
    WithinBlocks(BlocksOf(n), off + |data|);
    RawSame(n, data, off);
    SpellsAll(n);
    OwnFits(v, i);
  }

  lemma RawSame(n: Node, data: seq<Byte>, off: nat)
    requires |n.bytes| == BlocksOf(n) * BLK_SZ && BlocksTo(BlocksOf(n), off + |data|) == BlocksOf(n)
    requires off <= n.dirSize && off + |data| <= |n.bytes| && n.bytes[off..off + |data|] == data
    ensures RawLeft(n, data, off) == n.bytes
  {
    hide BlocksOf, BlocksTo;
    var raw := RawLeft(n, data, off);
    forall j | 0 <= j < |raw| ensures raw[j] == n.bytes[j] {
      assert off <= j < off + |data| ==> n.bytes[off..off + |data|][j - off] == data[j - off];
    }
  }

  lemma WithinBlocks(c: nat, end: nat)
    requires end <= c * BLK_SZ
    ensures BlocksTo(c, end) == c
  {
  }

  /** The dentries a directory of a sound volume has do fit. */
  lemma OwnFits(v: Volume, i: nat)
    requires Sound(v) && i in v.nodes && v.nodes[i].kind == Dir
    ensures Fitting(v, i, v.nodes[i].slots)
  {
    hide Named, Marked, Counted, Owned;
    assert NodeOk(v.nodes[i], v.ds);
    assert v.nodes[i := v.nodes[i].(slots := v.nodes[i].slots)] == v.nodes;
  }

  /** A write keeps the volume sound if and only if it goes to a regular file or the dentries it leaves
      fit: as many of them as the link count says, the dots first, names that no other slot has, inodes
      that exist and that nothing else names. */
  lemma WriteSoundIff(v: Volume, fh: nat, data: seq<Byte>, off: nat)
    requires Sound(v) && Write(v, fh, data, off).Ok?
    ensures Sound(Write(v, fh, data, off).vol) <==> HarmlessVia(v, fh, data, off)
  {
    hide Sound, DirWritten, Fitting, SlotsLeft, Affordable, WriteReg;
    var i := v.open[fh];
    if v.nodes[i].kind == Reg {
      WriteSound(v, fh, data, off);
    } else {
      DirShape(v, i);
      if Min(off, v.nodes[i].dirSize) < off + |data| {
        WriteDirSoundIff(v, i, data, off);
      } else {
        SameBytes(v, i, data, off);
      }
    }
  }

  /** No directory has a size: so it is until a write puts bytes into one, within the largest file. */
  ghost predicate Unsized(nodes: Nodes) {
    forall i :: i in nodes && nodes[i].kind == Dir ==> nodes[i].dirSize == 0
  }

  /** The recorded sizes alone: a write within the largest file that puts anything down through the handle
      of a directory is what gives it one, whether or not its dentries still fit. */
  lemma UnsizedIff(v: Volume, fh: nat, data: seq<Byte>, off: nat)
    requires Unsized(v.nodes) && Write(v, fh, data, off).Ok?
    ensures Unsized(Write(v, fh, data, off).vol.nodes) <==>
            v.nodes[v.open[fh]].kind == Reg || off + |data| == 0 || off + |data| > MAX_FILE_BYTES
  {
    hide Affordable, SlotsLeft, RawLeft, GrowTo, Reaches;
    var i, w := v.open[fh], Write(v, fh, data, off).vol;
    if v.nodes[i].kind == Dir && 0 < off + |data| <= MAX_FILE_BYTES {
      assert w.nodes[i].dirSize == off + |data|;
    }
  }

  /** Writing beyond byte 8 of a directory that has no size yet: the hole is filled with zeros from byte 0
      on, which blanks ".", and no data makes up for it. */
  lemma HoleBreaks(v: Volume, i: nat, data: seq<Byte>, off: nat)
    requires Sound(v) && i in v.nodes && v.nodes[i].kind == Dir && v.nodes[i].dirSize <= 8 < off
    ensures !Harmless(v, i, data, off)
  {
    hide Named, Owned, Marked, Counted;
    DirShape(v, i);
    var raw := RawLeft(v.nodes[i], data, off);
    assert |raw| >= BLK_SZ;
    var rec := raw[SlotAt(0)..SlotAt(0) + DIRENT_SZ];
    assert rec[8..][0] == 0;
    assert SlotsIn(raw)[0] == FromRecord(rec) && FromRecord(rec).name == "";
  }

  /** Slot j of a directory with slots `was` once the bytes w have been put down from start on: a record inside
      them is the one they spell, a record clear of them is as it was, or blank in a block that is new. */
  predicate SlotAfter(was: seq<Dentry>, start: nat, w: seq<Byte>, j: nat, now: Dentry) {
    var at := SlotAt(j);
    && (at + DIRENT_SZ <= start || start + |w| <= at ==> now == if j < |was| then was[j] else EMPTY)
    && (start <= at && at + DIRENT_SZ <= start + |w| ==> now == FromRecord(w[at - start..at - start + DIRENT_SZ]))
  }

  /** What a write does to the dentries of a directory, within the largest file and past it. */
  lemma SlotsAfter(v: Volume, i: nat, data: seq<Byte>, off: nat, j: nat)
    requires Sound(v) && i in v.nodes && v.nodes[i].kind == Dir && j < |SlotsLeft(v.nodes[i], data, off)|
    ensures |v.nodes[i].slots| <= |SlotsLeft(v.nodes[i], data, off)|
    ensures var n := v.nodes[i];
            SlotAfter(n.slots, Min(off, n.dirSize), Payload(n.dirSize, off, data), j, SlotsLeft(n, data, off)[j])
  {
    hide Sound, FromRecord, SlotAt, Spells;
    DirShape(v, i);
    var n := v.nodes[i];
    var start, w, raw := Min(off, n.dirSize), Payload(n.dirSize, off, data), RawLeft(n, data, off);
    var at := SlotAt(j);
    SlotFits(raw, j);
    if start <= at && at + DIRENT_SZ <= start + |w| {
      assert raw[at..at + DIRENT_SZ] == w[at - start..at - start + DIRENT_SZ];
    } else if at + DIRENT_SZ <= start || start + |w| <= at {
      SpellsAll(n);
      if j < |n.slots| {
        SlotFits(n.bytes, j);
        assert raw[at..at + DIRENT_SZ] == n.bytes[at..at + DIRENT_SZ];
      } else {
        PastOld(n, j);
        ZeroSlots(raw, j);
      }
    }
  }

  lemma PastOld(n: Node, j: nat)
    requires |n.bytes| == BlocksOf(n) * BLK_SZ && |n.slots| == BlocksOf(n) * NUM_DIRENTS_PER_BLOCK <= j
    ensures SlotAt(j) >= |n.bytes|
  {
  }

  /** Through whichever kind of handle, all of the data counts as written if the write ends within the largest
      file; past it the count is the distance from off to its end, in 64 bits also when off lies beyond. */
  lemma WriteCount(v: Volume, fh: nat, data: seq<Byte>, off: nat)
    requires Sound(v) && Write(v, fh, data, off).Ok?
    ensures var r, end := Write(v, fh, data, off).val, off + |data|;
            if end <= MAX_FILE_BYTES then r == |data| else r < U64 && (r + off) % U64 == MAX_FILE_BYTES
  {
    hide Sound, DirWritten, Affordable, Reaches, Splice;
    var i := v.open[fh];
    if v.nodes[i].kind == Dir {
      DirShape(v, i);
    }
  }

  /** A write past the largest file through the handle of a directory uses up all the blocks the directory could
      still get. With no more than the direct ones it keeps none of them, since its inode is not written; with
      an indirect list it keeps them all. */
  lemma PastLargest(v: Volume, fh: nat, data: seq<Byte>, off: nat)
    requires Sound(v) && Write(v, fh, data, off).Ok? && v.nodes[v.open[fh]].kind == Dir
    requires off + |data| > MAX_FILE_BYTES
    ensures var w, i := Write(v, fh, data, off).vol, v.open[fh];
            var n, m, c := v.nodes[i], w.nodes[i], |v.nodes[i].bytes| / BLK_SZ;
            && w.free + (MAX_FILE_BLKS - c) + (if c <= NUM_DIRECT_BLOCKS then 1 else 0) == v.free
            && m.dirSize == n.dirSize && m.links == n.links
            && if c <= NUM_DIRECT_BLOCKS then m.own == n.own && |m.bytes| == |n.bytes|
               else |m.bytes| == MAX_FILE_BYTES && forall k :: 0 <= k < MAX_FILE_BLKS ==> m.own[k] >= v.ds
  {
    hide Sound, SlotsIn, Spells, Apart, OnDevice;
    var i := v.open[fh];
    DirShape(v, i);
    LeftShape(v, i, data, off);
  }

  /** Through whichever kind of handle, what was written is what is read back. */
  lemma ReadsBack(v: Volume, fh: nat, data: seq<Byte>, off: nat, fh': nat)
    requires Sound(v) && Write(v, fh, data, off).Ok? && off + |data| <= MAX_FILE_BYTES
    requires fh' in v.open && v.open[fh'] == v.open[fh]
    ensures var r := Read(Write(v, fh, data, off).vol, fh', |data|, off); r.Ok? && r.val == data
  {
    hide Sound, GrowTo, SlotsIn, Affordable, Reaches;
    var i := v.open[fh];
    if v.nodes[i].kind == Reg {
      ReadBack(v, fh, data, off, fh');
    } else {
      DirShape(v, i);
      var m := DirWritten(v.nodes[i], v.next, data, off);
      if data != [] {
        var c := Contents(m);
        assert |c| >= off + |data|;
        forall j | 0 <= j < |data| ensures c[off..off + |data|][j] == data[j] {
          assert c[off + j] == m.bytes[off + j];
        }
        assert c[off..off + |data|] == data;
      }
    }
  }
}
