/** The mounted file system as an object: every operation reads and rewrites blocks in place. */
module Handle {
  import opened Layout
  import opened Paths
  import opened Directory
  import opened Raw
  import opened Volumes
  import opened Invariants
  import opened Blocks
  import opened Lookup
  import opened Steps
  import Format
  import Formatting
  import Image
  import NewVolumes
  import opened CreateOps
  import opened RemoveOps
  import opened RenameOps
  import opened HandleOps
  import opened DirWrites

  /** Success, an error reported to the client, or a server error. */
  datatype Reply<+T> = Done(val: T) | Failed | Crashed

  /** A reply and the volume it left behind are those of the flat operation. */
  ghost predicate Tells<T>(r: Reply<T>, want: Outcome<T>, got: Volume) {
    match want
    case Ok(w, x) => r == Done(x) && got == w
    case Refused(w) => r.Failed? && got == w
    case Fatal => r.Crashed?
  }

  /** Writing the blocks of file i, of either kind, and its inode: the flat write. */
  method WriteFile(ghost v: Volume, dk: Disk, ds: nat, nb: nat, free: nat, next: nat, i: nat, data: seq<Byte>, off: nat)
    returns (ok: bool, dk': Disk, free': nat, next': nat, count: nat)
    requires Sound(v) && v.ds == ds && v.nb == nb && v.free == free && v.next == next && v.nodes == NodesOf(dk, ds)
    requires i in dk.itab
    ensures (if dk.itab[i].kind == Reg then WriteReg(v, i, data, off) else WriteDir(v, i, data, off)) ==
            if ok then Ok(v.(free := free', next := next', nodes := NodesOf(dk', ds)), count) else Fatal
    ensures ok ==> dk'.bitmap == dk.bitmap
  {
    hide Sound, NodesOf, Affordable, WriteReg, WriteDir, Splice;
    hide FileIo.Shape, FileIo.Bytes, FileIo.Ids, FileIo.Placed;
    NodeHere(dk, ds, i);
    var s := FileIo.Work(dk, free, next, dk.itab[i]);
    FileShape(v, dk, i, s);
    var t, stored;
    ok, t, count, stored := FileIo.WriteBytes(s, ds, nb, data, off, BlocksHeld(v.nodes[i]));
    dk', free', next' := dk, free, next;
    if !ok {
      WriteFails(v, dk, i, data, off, s);
      return;
    }
    dk', free', next' := t.dk, t.free, t.next;
    if stored {
      dk' := t.dk.(itab := t.dk.itab[i := t.n]);
    }
    WriteDone(v, dk, dk', i, data, off, s, t, count);
  }

  class BfsHandle {
    const ds: nat
    const nb: nat
    var free: nat
    var next: nat
    var inoFree: nat
    var disk: Disk
    var open: map<nat, nat>
    var nextFd: nat

    /** The superblock's counters, and no open files. */
    constructor (nb: nat, dk: Disk, sb: Format.Super)
      ensures Vol() == Format.Mounted(nb, dk, sb)
    {
      this.ds, this.nb := Format.DataStart(nb), nb;
      this.free, this.next, this.inoFree, this.disk := sb.free, sb.next, sb.inoFree, dk;
      this.open, this.nextFd := map[], START_FD;
    }

    /** The flat volume the blocks represent. */
    ghost function Vol(): Volume
      reads this
    {
      Volume(ds, nb, free, next, inoFree, disk.bitmap, NodesOf(disk, ds), open, nextFd)
    }

    /** alloc_blk: 0 when no block is left. */
    method AllocBlk() returns (b: nat)
      requires next > 0
      modifies this`free, this`next
      ensures b == 0 <==> old(free) == 0
      ensures b == 0 ==> free == old(free) && next == old(next)
      ensures b != 0 ==> b == old(next) && next == old(next) + 1 && free == old(free) - 1
    {
      if free == 0 {
        return 0;
      }
      free := free - 1;
      b := next;
      next := next + 1;
    }

    /** The blank slot idx of block b, data block number k of directory d, is given the name. */
    method FillSlot(d: nat, b: nat, idx: nat, name: PlainPath, ino: nat, ghost k: nat) returns (r: Reply<bool>)
      requires Shaped(Vol()) && d in disk.itab && disk.itab[d].kind == Dir && ino < U64
      requires k < MAX_FILE_BLKS && idx < NUM_DIRENTS_PER_BLOCK && b >= ds && b == IdAt(disk, ds, disk.itab[d], k)
      requires FullBelow(disk, ds, d, k * NUM_DIRENTS_PER_BLOCK)
      requires DentsAt(disk, b)[idx].name == "" && forall y :: 0 <= y < idx ==> DentsAt(disk, b)[y].name != ""
      modifies this`disk
      ensures r == Done(true) ==> AddDentry(old(Vol()), d, name, ino) == Ok(Vol(), ())
      ensures r == Done(true) ==> Untouched(old(disk), disk, ds, d, next)
      ensures r != Done(true) ==> r == Crashed && AddDentry(old(Vol()), d, name, ino).Fatal?
    {
      hide FullBelow, NodesOf, AddDentry, Untouched, DentsAt, IdAt, FilledDisk, Shaped;
      ghost var dk, v := disk, Vol();
      NodeHere(dk, ds, d);
      if |name| + 1 > MAX_FILE_NAME_LEN {
        NameTooLong(v, d, name, ino);
        return Crashed;
      }
      disk := FilledDisk(disk, d, b, idx, Dentry(name, ino));
      SlotGiven(v, dk, d, k, b, idx, name, ino);
      return Done(true);
    }

    /** The next block of a full directory, as its direct block number k. */
    method AppendDirect(d: nat, n: Inode, k: nat, name: PlainPath, ino: nat) returns (r: Reply<bool>)
      requires Shaped(Vol()) && d in disk.itab && disk.itab[d] == n && n.kind == Dir && ino < U64
      requires k < NUM_DIRECT_BLOCKS && n.blks[k] < ds && FullBelow(disk, ds, d, k * NUM_DIRENTS_PER_BLOCK)
      modifies this`free, this`next, this`disk
      ensures r != Failed
      ensures r == Done(true) ==> AddDentry(old(Vol()), d, name, ino) == Ok(Vol(), ())
      ensures r == Done(true) ==> Untouched(old(disk), disk, ds, d, old(next))
      ensures r == Done(false) ==> && Vol() == old(Vol()) && disk == old(disk) && free == 0
                                   && n.blks[NUM_DIRECT_BLOCKS] < ds && AddDentry(old(Vol()), d, name, ino).Fatal?
      ensures r == Crashed ==> AddDentry(old(Vol()), d, name, ino).Fatal?
    {
      hide FullBelow, NodesOf, AddDentry, Untouched, AppendedDisk, Shaped;
      AppendStarts(Vol(), disk, d, k);
      ghost var dk, v := disk, Vol();
      var b := AllocBlk();
      if b == 0 {
        AddFails(v, dk, d, k, name, ino);
        return Done(false);
      }
      if b >= nb || |name| + 1 > MAX_FILE_NAME_LEN {
        AddFails(v, dk, d, k, name, ino);
        return Crashed;
      }
      disk := AppendedDisk(disk, d, k, b, Dentry(name, ino));
      DirectGiven(v, dk, d, k, name, ino);
      return Done(true);
    }

    method AddDentryToDirectBlks(d: nat, name: PlainPath, ino: nat) returns (r: Reply<bool>)
      requires Shaped(Vol()) && d in disk.itab && disk.itab[d].kind == Dir && ino < U64
      modifies this`free, this`next, this`disk
      ensures r != Failed
      ensures r == Done(true) ==> AddDentry(old(Vol()), d, name, ino) == Ok(Vol(), ())
      ensures r == Done(true) ==> Untouched(old(disk), disk, ds, d, old(next))
      ensures r == Done(false) ==> Vol() == old(Vol()) && disk == old(disk)
      ensures r == Done(false) ==>
                || FullBelow(disk, ds, d, NUM_DIRECT_BLOCKS * NUM_DIRENTS_PER_BLOCK)
                || (free == 0 && disk.itab[d].blks[NUM_DIRECT_BLOCKS] < ds
                    && AddDentry(old(Vol()), d, name, ino).Fatal?)
      ensures r == Crashed ==> AddDentry(old(Vol()), d, name, ino).Fatal?
    {
      hide NodesOk, Owned, DirAt, NodeOf, DirOk, Grown, GrowOwn, FullBelow, NodesOf, Insert, FirstEmpty;
      hide AddDentry, Untouched;
      hide SlotsAt, DentsAt, IdsAt, OwnOf, Leading, SeenBelow, LiveSet, LiveBelow, Window, Find, Hit, Live;
      hide PutRecord, NewRaw;
      var n := disk.itab[d];
      ghost var s := SlotsAt(disk, ds, d);
      ghost var dk, v := disk, Vol();
      DirFacts(disk, ds, nb, d);
      FullNone(disk, ds, d);
      var k := 0;
      while k < NUM_DIRECT_BLOCKS
        invariant k <= NUM_DIRECT_BLOCKS
        invariant FullBelow(disk, ds, d, k * NUM_DIRENTS_PER_BLOCK)
        invariant disk == old(disk) && free == old(free) && next == old(next)
      {
        BlockWindow(disk, ds, d, k);
        if n.blks[k] < ds {
          r := AppendDirect(d, n, k, name, ino);
          return;
        }
        var blk := DentsAt(disk, n.blks[k]);
        var hit, all, tested, idx, ents :=
          CheckEachDentry(blk, n.links, EmptySlot, "", 0, [], s, k * NUM_DIRENTS_PER_BLOCK);
        if hit {
          r := FillSlot(d, n.blks[k], idx, name, ino, k);
          return;
        }
        FullStep(disk, ds, d, k);
        k := k + 1;
      }
      return Done(false);
    }

    /** The next block of a full directory, entered in the indirect list ib of its inode n. */
    method AppendListed(ghost v: Volume, d: nat, n: Inode, ib: IdBlk, x: nat, listed: bool, name: PlainPath, ino: nat)
      returns (r: Reply<bool>)
      requires Shaped(v) && v == Vol().(free := v.free, next := v.next)
      requires d in disk.itab && disk.itab[d].kind == Dir && x < NUM_BLKS_PER_IB && ino < U64
      requires IdAt(disk, ds, disk.itab[d], NUM_DIRECT_BLOCKS + x) < ds
      requires FullBelow(disk, ds, d, (NUM_DIRECT_BLOCKS + x) * NUM_DIRENTS_PER_BLOCK)
      requires listed ==> && free == v.free && next == v.next && disk.itab[d] == n && n.blks[NUM_DIRECT_BLOCKS] >= ds
                          && ib == IdsAt(disk, n.blks[NUM_DIRECT_BLOCKS])
      requires !listed ==> && v.free >= 1 && free == v.free - 1 && next == v.next + 1 && x == 0
                           && disk.itab[d].blks[NUM_DIRECT_BLOCKS] < ds && ib == seq(NUM_BLKS_PER_IB, _ => 0)
                           && n == disk.itab[d].(blks := disk.itab[d].blks[NUM_DIRECT_BLOCKS := v.next])
      modifies this`free, this`next, this`disk
      ensures r == Done(true) ==> AddDentry(v, d, name, ino) == Ok(Vol(), ())
      ensures r == Done(true) ==> Untouched(old(disk), disk, ds, d, v.next)
      ensures r != Done(true) ==> AddDentry(v, d, name, ino).Fatal?
    {
      hide NodesOk, Owned, DirAt, NodeOf, DirOk, Grown, GrowOwn, FullBelow, NodesOf, Insert, FirstEmpty;
      hide AddDentry, Untouched;
      hide SlotsAt, DentsAt, OwnOf, Leading, NewRaw;
      ghost var dk := disk;
      ghost var k := NUM_DIRECT_BLOCKS + x;
      IndirectListed(dk, ds, nb, d);
      ListOnDevice(dk, ds, nb, d);
      var b := AllocBlk();
      if b == 0 {
        AddFails(v, dk, d, k, name, ino);
        return Done(false);
      }
      var ibId := n.blks[NUM_DIRECT_BLOCKS];
      if ibId >= nb || b >= nb || |name| + 1 > MAX_FILE_NAME_LEN {
        AddFails(v, dk, d, k, name, ino);
        return Crashed;
      }
      disk := disk.(ids := disk.ids[ibId := ib[x := b]],
      data := disk.data[b := NewRaw(Dentry(name, ino))],
      itab := disk.itab[d := n.(links := n.links + 1)]);
      if listed {
        GrowListed(dk, disk, ds, n, x, b, n.links + 1);
      } else {
        GrowIndirect(dk, disk, ds, dk.itab[d], ibId, n.links + 1);
      }
      ListGrown(dk, disk, ds, v.next, d, k, Dentry(name, ino));
      AddGrown(v, dk, disk, d, k, name, ino);
      UntouchedBy(dk, disk, ds, d, v.next, b, NewRaw(Dentry(name, ino)));
      return Done(true);
    }

    method AddDentryToIndirectBlks(d: nat, name: PlainPath, ino: nat) returns (r: Reply<bool>)
      requires Shaped(Vol()) && d in disk.itab && disk.itab[d].kind == Dir && ino < U64
      requires || FullBelow(disk, ds, d, NUM_DIRECT_BLOCKS * NUM_DIRENTS_PER_BLOCK)
               || (free == 0 && disk.itab[d].blks[NUM_DIRECT_BLOCKS] < ds && AddDentry(Vol(), d, name, ino).Fatal?)
      modifies this`free, this`next, this`disk
      ensures r == Done(true) ==> AddDentry(old(Vol()), d, name, ino) == Ok(Vol(), ())
      ensures r == Done(true) ==> Untouched(old(disk), disk, ds, d, old(next))
      ensures r != Done(true) ==> AddDentry(old(Vol()), d, name, ino).Fatal?
    {
      hide NodesOk, Owned, DirAt, NodeOf, DirOk, Grown, GrowOwn, FullBelow, NodesOf, Insert, FirstEmpty;
      hide AddDentry, Untouched;
      hide SlotsAt, DentsAt, IdsAt, OwnOf, Leading, SeenBelow, LiveSet, LiveBelow, Window, Find, Hit, Live;
      hide PutRecord, NewRaw;
      var n := disk.itab[d];
      ghost var s := SlotsAt(disk, ds, d);
      ghost var dk, v := disk, Vol();
      DirFacts(disk, ds, nb, d);
      var ib := IdsAt(disk, n.blks[NUM_DIRECT_BLOCKS]);
      var listed := n.blks[NUM_DIRECT_BLOCKS] >= ds;
      if !listed {
        var b := AllocBlk();
        if b == 0 {
          if FullBelow(disk, ds, d, NUM_DIRECT_BLOCKS * NUM_DIRENTS_PER_BLOCK) {
            AddFails(v, dk, d, NUM_DIRECT_BLOCKS, name, ino);
          }
          return Done(false);
        }
        n := n.(blks := n.blks[NUM_DIRECT_BLOCKS := b]);
        ib := seq(NUM_BLKS_PER_IB, _ => 0);
      }
      var x := 0;
      while x < NUM_BLKS_PER_IB
        invariant x <= NUM_BLKS_PER_IB && (!listed ==> x == 0)
        invariant FullBelow(disk, ds, d, (NUM_DIRECT_BLOCKS + x) * NUM_DIRENTS_PER_BLOCK)
        invariant disk == old(disk)
        invariant if listed then free == old(free) && next == old(next)
                  else old(free) >= 1 && free == old(free) - 1 && next == old(next) + 1
      {
        var k := NUM_DIRECT_BLOCKS + x;
        BlockWindow(disk, ds, d, k);
        if ib[x] < ds {
          r := AppendListed(v, d, n, ib, x, listed, name, ino);
          return;
        }
        var blk := DentsAt(disk, ib[x]);
        var hit, all, tested, idx, ents :=
          CheckEachDentry(blk, n.links, EmptySlot, "", 0, [], s, k * NUM_DIRENTS_PER_BLOCK);
        if hit {
          r := FillSlot(d, ib[x], idx, name, ino, k);
          return;
        }
        FullStep(disk, ds, d, k);
        x := x + 1;
      }
      AddFails(v, dk, d, MAX_FILE_BLKS, name, ino);
      return Done(false);
    }

    /** The pair of calls every caller makes: direct blocks first, then indirect ones. */
    method EnterDentry(d: nat, name: PlainPath, ino: nat) returns (r: Reply<()>)
      requires Shaped(Vol()) && d in disk.itab && disk.itab[d].kind == Dir && ino < U64
      modifies this`free, this`next, this`disk
      ensures Tells(r, AddDentry(old(Vol()), d, name, ino), Vol())
      ensures r.Done? ==> Untouched(old(disk), disk, ds, d, old(next))
    {
      hide Shaped, FullBelow, NodesOf, AddDentry, Untouched;
      var added := AddDentryToDirectBlks(d, name, ino);
      if added.Done? && !added.val {
        added := AddDentryToIndirectBlks(d, name, ino);
      }
      r := if added.Done? && added.val then Done(()) else Crashed;
    }

    /** alloc_ino: the first clear bit over all bitmap blocks. */
    method AllocIno() returns (r: Reply<nat>)
      modifies this`inoFree, this`disk
      ensures Tells(r, Volumes.AllocIno(old(Vol())), Vol())
      ensures disk == old(disk).(bitmap := disk.bitmap)
      ensures r.Done? ==> r.val < |disk.bitmap|
    {
      hide NodesOf;
      if inoFree == 0 {
        return Failed;
      }
      ghost var bits := disk.bitmap;
      var ibmb := 0;
      while ibmb < NUM_IBITMAP_BLOCKS
        invariant ibmb <= NUM_IBITMAP_BLOCKS
        invariant forall i :: 0 <= i < ibmb * BLK_SZ_BITS ==> bits[i]
        invariant disk == old(disk) && inoFree == old(inoFree)
      {
        var b := 0;
        while b < BLK_SZ_BITS
          invariant b <= BLK_SZ_BITS
          invariant forall i :: 0 <= i < ibmb * BLK_SZ_BITS + b ==> bits[i]
          invariant disk == old(disk) && inoFree == old(inoFree)
        {
          var i := ibmb * BLK_SZ_BITS + b;
          if !disk.bitmap[i] {
            disk := disk.(bitmap := disk.bitmap[i := true]);
            inoFree := inoFree - 1;
            BitmapOnly(old(disk), disk.bitmap, ds);
            return Done(i);
          }
          b := b + 1;
        }
        ibmb := ibmb + 1;
      }
      return Crashed;
    }

    /** dealloc_blk: refused for reserved ids and when every block counts as free already. */
    method DeallocBlk(b: nat) returns (ok: bool)
      modifies this`free
      ensures ok <==> b > ds && old(free) != nb - ds
      ensures free == if ok then old(free) + 1 else old(free)
    {
      if b <= ds || free == nb - ds {
        return false;
      }
      free := free + 1;
      return true;
    }

    /** delete_inode_iblks: false when the free count would pass the number of data blocks. */
    method DeleteInodeIblks(n: Inode) returns (ok: bool)
      requires ds <= nb && free <= nb - ds
      modifies this`free
      ensures ok <==> old(free) + Freed(OwnOf(disk, ds, n), ds) <= nb - ds
      ensures ok ==> free == old(free) + Freed(OwnOf(disk, ds, n), ds)
    {
      ghost var own := OwnOf(disk, ds, n);
      hide OwnOf;
      var k := 0;
      while k < NUM_DIRECT_BLOCKS
        invariant k <= NUM_DIRECT_BLOCKS && free == old(free) + k <= nb - ds
        invariant RunAbove(own, ds, 0, NUM_DIRECT_BLOCKS) == k + RunAbove(own, ds, k, NUM_DIRECT_BLOCKS)
      {
        if n.blks[k] <= ds {
          return true;
        }
        var freed := DeallocBlk(n.blks[k]);
        if !freed {
          return false;
        }
        k := k + 1;
      }
      var ind := n.blks[NUM_DIRECT_BLOCKS];
      if ind <= ds {
        return true;
      }
      var ib := IdsAt(disk, ind);
      var x := 0;
      while x < NUM_BLKS_PER_IB
        invariant x <= NUM_BLKS_PER_IB && free == old(free) + NUM_DIRECT_BLOCKS + x <= nb - ds
        invariant RunAbove(own, ds, NUM_DIRECT_BLOCKS, MAX_FILE_BLKS) ==
                  x + RunAbove(own, ds, NUM_DIRECT_BLOCKS + x, MAX_FILE_BLKS)
      {
        assert own[NUM_DIRECT_BLOCKS + x] == ib[x];
        if ib[x] <= ds {
          return true;
        }
        var freed := DeallocBlk(ib[x]);
        if !freed {
          return false;
        }
        x := x + 1;
      }
      ok := DeallocBlk(ind);
    }

    /** dealloc_ino. */
    method DeallocIno(i: nat) returns (r: Reply<()>)
      requires 1 <= ds < nb && free <= nb - ds && i in disk.itab
      modifies this`free, this`inoFree, this`disk
      ensures Tells(r, Volumes.DeallocIno(old(Vol()), i), Vol())
      ensures r.Done? ==> disk == old(disk).(bitmap := disk.bitmap, itab := old(disk).itab - {i})
    {
      hide NodesOf, NodeOf, Freed;
      NodesIs(disk, ds, i);
      if i == ROOT_INO || i >= BLK_SZ_BITS {
        return Crashed;
      }
      var n := disk.itab[i];
      var ok := DeleteInodeIblks(n);
      if !ok {
        return Crashed;
      }
      disk := disk.(bitmap := disk.bitmap[i := false], itab := disk.itab - {i});
      inoFree := inoFree + 1;
      NodeFreed(old(disk), disk, ds, i);
      return Done(());
    }

    /** Looking up the directory that should hold p. */
    method FindParent(p: Path) returns (r: Reply<nat>)
      requires NodesOk(NodesOf(disk, ds), ds, nb)
      ensures Tells(r, ParentDir(Vol(), p), Vol())
      ensures r.Done? ==> r.val in disk.itab && disk.itab[r.val].kind == Dir
    {
      hide NodesOk, GetDe;
      var l := Locate(disk, ds, nb, Dirname(p));
      if l.NotADir? {
        return Failed;
      }
      if !l.At? || l.ino !in disk.itab || disk.itab[l.ino].kind != Dir {
        return Crashed;
      }
      return Done(l.ino);
    }

    /** Serializing a dentry over the one found at (blk, idx), slot j of directory d. */
    method WriteDentry(blk: nat, idx: nat, de: Dentry, ghost d: nat, ghost j: nat)
      requires Shaped(Vol()) && d in disk.itab && disk.itab[d].kind == Dir && j < |Vol().nodes[d].slots|
      requires PlacedAt(disk, ds, d, j, blk, idx) && Storable(de)
      modifies this`disk
      ensures Vol() == SetSlot(old(Vol()), d, j, de)
      ensures disk == old(disk).(data := disk.data)
    {
      hide NodesOf, Shaped, PutRecord;
      disk := disk.(data := disk.data[blk := PutRecord(DataAt(disk, blk), idx, de)]);
      SlotSet(old(Vol()), old(disk), disk, d, j, blk, idx, de);
    }

    method LowerLinks(d: nat)
      requires d in disk.itab
      modifies this`disk
      ensures Vol() == DropLink(old(Vol()), d)
    {
      hide NodesOf, DropLink, Recounted;
      LinkDropped(Vol(), disk, d);
      disk := Recounted(disk, d, 0, -1);
    }

    /** The common end of unlink and rmdir: free the inode, then blank its dentry. */
    method RemoveEntry(p: Path, l: Probe, ghost look: Look) returns (r: Reply<()>)
      requires Sound(Vol()) && look == GetDe(Vol().nodes, p) && look.Found? && look.ino in Vol().nodes
      requires Reports(disk, ds, look, l)
      modifies this`free, this`inoFree, this`disk
      ensures Tells(r, Volumes.RemoveEntry(old(Vol()), p, look), Vol())
    {
      hide Sound, NodesOf, NodesOk, GetDe, Volumes.DeallocIno, ParentDir, SetSlot, DropLink, PlacedAt, Shaped;
      ghost var v := Vol();
      SoundShaped(v);
      var gone := DeallocIno(l.ino);
      if !gone.Done? {
        return Crashed;
      }
      DeallocKeeps(v, p, look);
      FoundPlace(v, old(disk), p, look, l);
      FreedShaped(v, Vol(), l.ino);
      PlaceKept(old(disk), disk, ds, l.ino, look.dir, look.slot, l.blk, l.idx);
      NodeHere(disk, ds, look.dir);
      r := BlankEntry(p, l.blk, l.idx, look.dir, look.slot);
    }

    /** Blanking the dentry at (blk, idx) and dropping the link count of directory up. */
    method BlankAt(blk: nat, idx: nat, up: nat, ghost d: nat, ghost j: nat)
      requires Shaped(Vol()) && d in disk.itab && disk.itab[d].kind == Dir && j < |Vol().nodes[d].slots|
      requires PlacedAt(disk, ds, d, j, blk, idx) && up in disk.itab
      modifies this`disk
      ensures up in SetSlot(old(Vol()), d, j, EMPTY).nodes
      ensures Vol() == DropLink(SetSlot(old(Vol()), d, j, EMPTY), up)
    {
      hide NodesOf, Shaped, SetSlot, DropLink, PlacedAt;
      WriteDentry(blk, idx, EMPTY, d, j);
      NodeHere(disk, ds, up);
      LowerLinks(up);
    }

    /** Blanking the dentry at (blk, idx) and dropping the link count of p's parent directory. */
    method BlankEntry(p: Path, blk: nat, idx: nat, ghost d: nat, ghost j: nat) returns (r: Reply<()>)
      requires Shaped(Vol()) && d in disk.itab && disk.itab[d].kind == Dir && j < |Vol().nodes[d].slots|
      requires PlacedAt(disk, ds, d, j, blk, idx)
      modifies this`disk
      ensures var up := ParentDir(old(Vol()), p);
              if up.Refused? then r.Failed? && Vol() == old(Vol()) else if up.Fatal? then r.Crashed?
              else && up.val in SetSlot(old(Vol()), d, j, EMPTY).nodes && r == Done(())
                   && Vol() == DropLink(SetSlot(old(Vol()), d, j, EMPTY), up.val)
    {
      hide NodesOf, NodesOk, ParentDir, SetSlot, DropLink, PlacedAt;
      var up := FindParent(p);
      if up.Failed? {
        return Failed;
      }
      if up.Crashed? {
        return Crashed;
      }
      BlankAt(blk, idx, up.val, d, j);
      return Done(());
    }

    method Unlink(p: Path) returns (r: Reply<()>)
      requires Sound(Vol())
      modifies this`free, this`inoFree, this`disk
      ensures Tells(r, Volumes.Unlink(old(Vol()), p), Vol())
      ensures !r.Crashed? ==> Sound(Vol())
    {
      hide Sound, NodesOf, NodesOk, GetDe, Volumes.RemoveEntry;
      UnlinkSound(Vol(), p);
      SoundShaped(Vol());
      if |p| + 1 > MAX_FILE_NAME_LEN {
        return Failed;
      }
      var l := Locate(disk, ds, nb, p);
      if l.Corrupt? {
        return Crashed;
      }
      if !l.At? {
        return Failed;
      }
      NodeHere(disk, ds, l.ino);
      if l.ino !in disk.itab {
        return Crashed;
      }
      var n := disk.itab[l.ino];
      if n.kind != Reg {
        return Failed;
      }
      if n.links > 0 {
        return Crashed;
      }
      if p != "/" && n.refs > 0 {
        return Failed;
      }
      r := RemoveEntry(p, l, GetDe(Vol().nodes, p));
    }

    method Rmdir(p: Path) returns (r: Reply<()>)
      requires Sound(Vol())
      modifies this`free, this`inoFree, this`disk
      ensures Tells(r, Volumes.Rmdir(old(Vol()), p), Vol())
      ensures !r.Crashed? ==> Sound(Vol())
    {
      hide Sound, NodesOf, NodesOk, GetDe, Volumes.RemoveEntry;
      RmdirSound(Vol(), p);
      SoundShaped(Vol());
      if |p| + 1 > MAX_FILE_NAME_LEN {
        return Failed;
      }
      var l := Locate(disk, ds, nb, p);
      if l.Corrupt? {
        return Crashed;
      }
      if !l.At? {
        return Failed;
      }
      NodeHere(disk, ds, l.ino);
      if l.ino !in disk.itab {
        return Crashed;
      }
      var n := disk.itab[l.ino];
      if n.kind != Dir || n.links > 2 {
        return Failed;
      }
      if p != "/" && n.refs > 0 {
        return Failed;
      }
      r := RemoveEntry(p, l, GetDe(Vol().nodes, p));
    }

    /** The first half of rename: the source's dentry is blanked. */
    method Detach(fr: Path) returns (r: Reply<nat>)
      requires Sound(Vol())
      modifies this`disk
      ensures Tells(r, Volumes.Detach(old(Vol()), fr), Vol())
    {
      hide Sound, NodesOf, NodesOk, GetDe, ParentDir, SetSlot, DropLink, PlacedAt, Shaped;
      ghost var v := Vol();
      SoundShaped(v);
      ShapedOk(v);
      if |fr| + 1 > MAX_FILE_NAME_LEN {
        return Failed;
      }
      var up := FindParent(fr);
      if !up.Done? {
        return if up.Failed? then Failed else Crashed;
      }
      var l := Locate(disk, ds, nb, fr);
      if l.Corrupt? {
        return Crashed;
      }
      if !l.At? {
        return Failed;
      }
      NodeHere(disk, ds, l.ino);
      if l.ino !in disk.itab {
        return Crashed;
      }
      if disk.itab[l.ino].kind != Reg {
        return Failed;
      }
      ghost var look := GetDe(v.nodes, fr);
      SourcePlace(v, disk, fr, look, l);
      BlankAt(l.blk, l.idx, up.val, look.dir, look.slot);
      return Done(l.ino);
    }

    /** The second half of rename: an existing target is freed and its dentry overwritten. */
    method Attach(to: PlainPath, f: nat) returns (r: Reply<()>)
      requires Sound(Vol()) && Loose(Vol(), f)
      modifies this`free, this`next, this`inoFree, this`disk
      ensures Tells(r, Volumes.Attach(old(Vol()), to, f), Vol())
    {
      hide Sound, NodesOf, NodesOk, GetDe, ParentDir, SetSlot, Volumes.DeallocIno, AddDentry, PlacedAt, Shaped, Loose;
      ghost var v := Vol();
      SoundShaped(v);
      ShapedOk(v);
      SmallLoose(v, f);
      var t := Locate(disk, ds, nb, to);
      if t.Corrupt? {
        return Crashed;
      }
      if t.NotADir? {
        return Failed;
      }
      if t.At? {
        NodeHere(disk, ds, t.ino);
        if t.ino !in disk.itab {
          return Crashed;
        }
        r := Replace(to, f, t, GetDe(v.nodes, to));
        return;
      }
      var up := FindParent(to);
      if !up.Done? {
        return if up.Failed? then Failed else Crashed;
      }
      r := EnterDentry(up.val, to, f);
    }

    method Replace(to: PlainPath, f: nat, t: Probe, ghost look: Look) returns (r: Reply<()>)
      requires Sound(Vol()) && look == GetDe(Vol().nodes, to) && look.Found? && look.ino in Vol().nodes
      requires Reports(disk, ds, look, t) && f < U64
      modifies this`free, this`inoFree, this`disk
      ensures var gone := Volumes.DeallocIno(old(Vol()), look.ino);
              if gone.Ok? then r == Done(()) && Vol() == SetSlot(gone.vol, look.dir, look.slot, Dentry(to, f))
              else r.Crashed?
    {
      hide Sound, NodesOf, NodesOk, GetDe, SetSlot, Volumes.DeallocIno, PlacedAt, Shaped;
      ghost var v := Vol();
      SoundShaped(v);
      var gone := DeallocIno(t.ino);
      if !gone.Done? {
        return Crashed;
      }
      DeallocKeeps(v, to, look);
      FoundPlace(v, old(disk), to, look, t);
      FreedShaped(v, Vol(), t.ino);
      PlaceKept(old(disk), disk, ds, t.ino, look.dir, look.slot, t.blk, t.idx);
      FoundShort(v, to);
      WriteDentry(t.blk, t.idx, Dentry(to, f), look.dir, look.slot);
      return Done(());
    }

    method Rename(fr: Path, to: PlainPath) returns (r: Reply<()>)
      requires Sound(Vol())
      modifies this`free, this`next, this`inoFree, this`disk
      ensures Tells(r, Volumes.Rename(old(Vol()), fr, to), Vol())
      ensures !r.Crashed? ==> Sound(Vol())
    {
      hide Sound, NodesOf, Volumes.Detach, Volumes.Attach;
      ghost var v := Vol();
      RenameSound(v, fr, to);
      var out := Detach(fr);
      if !out.Done? {
        return if out.Failed? then Failed else Crashed;
      }
      DetachSound(v, fr);
      r := Attach(to, out.val);
    }

    /** alloc_fd and the entry in the open-file table. */
    method EnterHandle(i: nat) returns (r: Reply<nat>)
      modifies this`open, this`nextFd
      ensures Tells(r, OpenHandle(old(Vol()), i), Vol()) && !r.Failed?
    {
      hide NodesOf;
      if |open| == MAX_OPEN_FILES || nextFd < START_FD {
        return Crashed;
      }
      r := Done(nextFd);
      open := open[nextFd := i];
      nextFd := (nextFd + 1) % FD_MOD;
    }

    method ChangeRefs(i: nat, delta: int)
      requires i in disk.itab
      modifies this`disk
      ensures Vol() == AddRefs(old(Vol()), i, delta)
    {
      hide NodesOf, AddRefs, Recounted;
      RefsChanged(Vol(), disk, i, delta);
      disk := Recounted(disk, i, delta, 0);
    }

    /** bfs_open and bfs_opendir. */
    method Open(p: Path, kind: Kind) returns (r: Reply<nat>)
      requires Sound(Vol())
      modifies this`disk, this`open, this`nextFd
      ensures Tells(r, Volumes.Open(old(Vol()), p, kind), Vol())
      ensures !r.Crashed? ==> Sound(Vol())
    {
      hide Sound, NodesOf, NodesOk, GetDe, OpenHandle, AddRefs;
      ghost var v := Vol();
      SoundShaped(v);
      OpenSound(v, p, kind);
      if |p| + 1 > MAX_FILE_NAME_LEN {
        return Failed;
      }
      var l := Locate(disk, ds, nb, p);
      if l.Corrupt? {
        return Crashed;
      }
      if !l.At? {
        return Failed;
      }
      NodeHere(disk, ds, l.ino);
      if l.ino !in disk.itab {
        return Crashed;
      }
      if disk.itab[l.ino].kind != kind {
        return Failed;
      }
      r := EnterHandle(l.ino);
      if r.Done? {
        ChangeRefs(l.ino, 1);
      }
    }

    method Release(fh: nat) returns (r: Reply<()>)
      requires Sound(Vol())
      modifies this`disk, this`open
      ensures Tells(r, Volumes.Release(old(Vol()), fh), Vol())
      ensures !r.Crashed? ==> Sound(Vol())
    {
      hide Sound, NodesOf, AddRefs;
      if Volumes.Release(Vol(), fh).Ok? {
        ReleaseSound(Vol(), fh);
      }
      if fh !in open {
        return Crashed;
      }
      var i := open[fh];
      NodeHere(disk, ds, i);
      if i !in disk.itab {
        return Crashed;
      }
      ChangeRefs(i, -1);
      open := open - {fh};
      return Done(());
    }

    /** prealloc_blks: all direct blocks, the indirect block, and every block it lists. */
    method PreallocBlks() returns (ok: bool, blks: Blks)
      requires next > 0
      modifies this`free, this`next, this`disk
      ensures ok <==> old(free) >= PREALLOC && old(next) + NUM_DIRECT_BLOCKS < nb
      ensures ok ==> && free == old(free) - PREALLOC && next == old(next) + PREALLOC
                     && (forall k :: 0 <= k <= NUM_DIRECT_BLOCKS ==> blks[k] == old(next) + k)
                     && disk == old(disk).(ids := old(disk).ids[old(next) + NUM_DIRECT_BLOCKS :=
                                seq(NUM_BLKS_PER_IB, x => old(next) + NUM_DIRECT_BLOCKS + 1 + x)])
    {
      blks := seq(NUM_DIRECT_BLOCKS + 1, _ => 0);
      var k := 0;
      while k < NUM_DIRECT_BLOCKS
        invariant k <= NUM_DIRECT_BLOCKS && k <= old(free)
        invariant free == old(free) - k && next == old(next) + k && disk == old(disk)
        invariant forall i :: 0 <= i < k ==> blks[i] == old(next) + i
      {
        var b := AllocBlk();
        if b == 0 {
          return false, blks;
        }
        blks := blks[k := b];
        k := k + 1;
      }
      var ind := AllocBlk();
      if ind == 0 {
        return false, blks;
      }
      blks := blks[NUM_DIRECT_BLOCKS := ind];
      var ib: IdBlk := seq(NUM_BLKS_PER_IB, _ => 0);
      var x := 0;
      while x < NUM_BLKS_PER_IB
        invariant x <= NUM_BLKS_PER_IB && NUM_DIRECT_BLOCKS + 1 + x <= old(free) && disk == old(disk)
        invariant free == old(free) - (NUM_DIRECT_BLOCKS + 1 + x) && next == old(next) + NUM_DIRECT_BLOCKS + 1 + x
        invariant forall i :: 0 <= i < x ==> ib[i] == old(next) + NUM_DIRECT_BLOCKS + 1 + i
      {
        var b := AllocBlk();
        if b == 0 {
          return false, blks;
        }
        ib := ib[x := b];
        x := x + 1;
      }
      if ind >= nb {
        return false, blks;
      }
      disk := disk.(ids := disk.ids[ind := ib]);
      assert ib == seq(NUM_BLKS_PER_IB, x => old(next) + NUM_DIRECT_BLOCKS + 1 + x);
      return true, blks;
    }

    /** The checks create and mkdir make before they change anything. */
    method FindNewParent(p: Path) returns (r: Reply<nat>)
      requires NodesOk(NodesOf(disk, ds), ds, nb)
      ensures Tells(r, NewEntryDir(Vol(), p), Vol())
      ensures r.Done? ==> r.val in disk.itab && disk.itab[r.val].kind == Dir
    {
      hide NodesOk, GetDe, ParentDir, NodesOf;
      if |p| + 1 > MAX_FILE_NAME_LEN {
        return Failed;
      }
      var l := Locate(disk, ds, nb, p);
      if l.At? || l.NotADir? {
        return Failed;
      }
      if l.Corrupt? {
        return Crashed;
      }
      r := FindParent(p);
    }

    /** alloc_ino as its callers use it. */
    method TakeIno() returns (r: Reply<nat>)
      modifies this`inoFree, this`disk
      ensures Tells(r, NewIno(old(Vol())), Vol())
      ensures disk == old(disk).(bitmap := disk.bitmap)
      ensures r.Done? ==> r.val < |disk.bitmap|
    {
      hide NodesOf, Volumes.AllocIno;
      r := AllocIno();
      if r.Done? && r.val < FIRST_UNRESERVED_INO {
        r := Failed;
      }
    }

    /** How create and mkdir begin: the checks, then an inode number. */
    method TakeEntry(p: Path) returns (dir: Reply<nat>, ino: Reply<nat>)
      requires Sound(Vol())
      modifies this`inoFree, this`disk
      ensures Tells(dir, NewEntryDir(old(Vol()), p), old(Vol()))
      ensures if dir.Done? then Tells(ino, NewIno(old(Vol())), Vol()) else Vol() == old(Vol())
      ensures dir.Done? && ino.Done? ==>
                && Shaped(Vol()) && dir.val in disk.itab && disk.itab[dir.val].kind == Dir && dir.val < U64
                && ino.val < |disk.bitmap|
    {
      hide Sound, NodesOf, NodesOk, NewEntryDir, NewIno, Shaped;
      ghost var v := Vol();
      SoundShaped(v);
      ShapedOk(v);
      ino := Failed;
      dir := FindNewParent(p);
      if dir.Done? {
        NodeHere(disk, ds, dir.val);
        SmallIno(v, dir.val);
        ino := TakeIno();
        BitmapOnly(old(disk), disk.bitmap, ds);
        if ino.Done? {
          NextShaped(v, Vol());
        }
      }
    }

    /** The end of create: blocks are set aside and the new inode written. */
    method WriteNewFile(i: nat) returns (ok: bool)
      requires 0 < ds <= next && Owned(NodesOf(disk, ds), ds, next)
      modifies this`free, this`next, this`disk
      ensures ok <==> old(free) >= PREALLOC && old(next) + NUM_DIRECT_BLOCKS < nb
      ensures ok ==>
                var n := Node(Reg, 1, 0, [], [], PreallocOwn(old(next)), 0);
                Vol() == old(Vol()).(free := old(free) - PREALLOC, next := old(next) + PREALLOC,
                nodes := old(Vol()).nodes[i := n])
    {
      hide NodesOf, NodeOf, Owned, PreallocOwn;
      var blks;
      ok, blks := PreallocBlks();
      if ok {
        disk := disk.(itab := disk.itab[i := Inode(Reg, 1, 0, 0, blks)]);
        InodeAdded(old(disk), disk, ds, old(next), i);
        PreallocView(disk, ds, old(next), blks);
      }
    }

    method NewFile(d: nat, p: PlainPath, i: nat) returns (r: Reply<nat>)
      requires Shaped(Vol()) && d in disk.itab && disk.itab[d].kind == Dir && i < U64
      modifies this`free, this`next, this`disk, this`open, this`nextFd
      ensures Tells(r, Volumes.NewFile(old(Vol()), d, p, i), Vol())
    {
      hide NodesOf, NodesOk, AddDentry, OpenHandle, Owned, PreallocOwn, Volumes.NewFile, Untouched;
      ghost var v := Vol();
      NodeHere(disk, ds, d);
      NewFileIs(v, d, p, i);
      var added := EnterDentry(d, p, i);
      if !added.Done? {
        return Crashed;
      }
      AddOwned(v, d, p, i);
      ghost var v1 := Vol();
      var handle := EnterHandle(i);
      if !handle.Done? {
        return Crashed;
      }
      NewFileEnds(v, v1, Vol(), d, p, i, handle.val);
      var ok := WriteNewFile(i);
      if !ok {
        return Crashed;
      }
      return Done(handle.val);
    }

    method Create(p: PlainPath) returns (r: Reply<nat>)
      requires Sound(Vol())
      modifies this`free, this`next, this`inoFree, this`disk, this`open, this`nextFd
      ensures Tells(r, Volumes.Create(old(Vol()), p), Vol())
      ensures !r.Crashed? ==> Sound(Vol())
    {
      hide Sound, NodesOf, NewEntryDir, NewIno, Volumes.NewFile, Shaped;
      CreateSound(Vol(), p);
      var dir, ino := TakeEntry(p);
      if !dir.Done? {
        return if dir.Failed? then Failed else Crashed;
      }
      if !ino.Done? {
        return if ino.Failed? then Failed else Crashed;
      }
      r := NewFile(dir.val, p, ino.val);
    }

    /** A new directory's block, with "." and "..", in a block just allocated. */
    method WriteDots(i: nat, d: nat) returns (b: nat)
      requires Shaped(Vol())
      modifies this`free, this`next, this`disk
      ensures var blk := Volumes.AllocBlk(old(Vol()));
              if !blk.Ok? || blk.val >= nb then b == 0
              else b == blk.val == old(next) && Vol() == blk.vol && Shaped(Vol()) && DataAt(disk, b) == DotRaw(i, d)
                   && disk.itab == old(disk).itab
    {
      hide NodesOf, NodesOk, Owned, DotRaw;
      b := AllocBlk();
      if b == 0 || b >= nb {
        return 0;
      }
      disk := disk.(data := disk.data[b := DotRaw(i, d)]);
      FreshBlock(old(disk), disk, ds, b, DotRaw(i, d));
      NextShaped(old(Vol()), Vol());
    }

    /** The inode of a new directory, written last. */
    method WriteNewDir(i: nat, d: nat, b: nat)
      requires 1 <= ds <= b && ds <= next && Owned(NodesOf(disk, ds), ds, next) && DataAt(disk, b) == DotRaw(i, d)
      requires i < U64 && d < U64
      modifies this`disk
      ensures Vol() == old(Vol()).(nodes := old(Vol()).nodes[i := DotDir(0, i, d, b)])
    {
      hide NodesOf, NodeOf, Owned, DotDir, DotRaw;
      var blks: Blks := seq(NUM_DIRECT_BLOCKS + 1, k => if k == 0 then b else 0);
      disk := disk.(itab := disk.itab[i := Inode(Dir, 0, 2, 0, blks)]);
      InodeAdded(old(disk), disk, ds, next, i);
      NewDirView(disk, ds, b, blks, i, d);
    }

    method NewDir(d: nat, p: PlainPath, i: nat) returns (r: Reply<()>)
      requires Shaped(Vol()) && d in disk.itab && disk.itab[d].kind == Dir && i < U64 && d < U64
      modifies this`free, this`next, this`disk
      ensures Tells(r, Volumes.NewDir(old(Vol()), d, p, i), Vol())
    {
      hide NodesOf, NodesOk, AddDentry, Owned, DotDir, DotRaw, Untouched;
      NodeHere(disk, ds, d);
      var b := WriteDots(i, d);
      if b == 0 {
        return Crashed;
      }
      ghost var v1, dk1 := Vol(), disk;
      var added := EnterDentry(d, p, i);
      if !added.Done? {
        return Crashed;
      }
      AddOwned(v1, d, p, i);
      OwnBlockKept(old(Vol()), dk1, disk, ds, d, b);
      WriteNewDir(i, d, b);
      return Done(());
    }

    method Mkdir(p: PlainPath) returns (r: Reply<()>)
      requires Sound(Vol())
      modifies this`free, this`next, this`inoFree, this`disk
      ensures Tells(r, Volumes.Mkdir(old(Vol()), p), Vol())
      ensures !r.Crashed? ==> Sound(Vol())
    {
      hide Sound, NodesOf, NewEntryDir, NewIno, Volumes.NewDir, Shaped;
      MkdirSound(Vol(), p);
      var dir, ino := TakeEntry(p);
      if !dir.Done? {
        return if dir.Failed? then Failed else Crashed;
      }
      if !ino.Done? {
        return if ino.Failed? then Failed else Crashed;
      }
      r := NewDir(dir.val, p, ino.val);
    }

    /** bfs_readdir on an open directory. */
    method Readdir(fh: nat) returns (r: Reply<seq<Dentry>>)
      requires Sound(Vol())
      ensures r.Done? <==> fh in open && open[fh] in disk.itab && disk.itab[open[fh]].kind == Dir
      ensures r.Done? ==>
                var s := Vol().nodes[open[fh]].slots; r.val == Entries(s, |s|) && |r.val| == Vol().nodes[open[fh]].links
    {
      hide Sound, NodesOk, NodeOf;
      SoundShaped(Vol());
      if fh !in open {
        return Crashed;
      }
      var ents := Lookup.Readdir(disk, ds, nb, open[fh]);
      if ents.None? {
        return if open[fh] in disk.itab then Failed else Crashed;
      }
      ListedOnce(Vol(), open[fh]);
      return Done(ents.value);
    }

    /** bfs_read. */
    method Read(fh: nat, size: nat, off: nat) returns (r: Reply<seq<Byte>>)
      requires Sound(Vol())
      ensures Tells(r, Volumes.Read(Vol(), fh, size, off), Vol())
    {
      hide Sound, NodesOf, FileIo.Shape, FileIo.Ids, BytesOf, Volumes.Read, OwnOf;
      if fh !in open {
        NoHandle(Vol(), fh, [], size, off);
        return Crashed;
      }
      NodeHere(disk, ds, open[fh]);
      if open[fh] !in disk.itab {
        NoHandle(Vol(), fh, [], size, off);
        return Crashed;
      }
      var n := disk.itab[open[fh]];
      ghost var s, c := FileIo.Work(disk, free, next, n), BlocksHeld(Vol().nodes[open[fh]]);
      FileShape(Vol(), disk, open[fh], s);
      ShapeMapped(s, ds, c);
      var buf := FileIo.ReadBytes(disk, ds, n, size, off, c);
      ReadIs(Vol(), disk, fh, size, off, buf, s);
      return Done(buf);
    }

    /** bfs_write, through a handle of either kind. */
    method Write(fh: nat, data: seq<Byte>, off: nat) returns (r: Reply<nat>)
      requires Sound(Vol())
      modifies this`disk, this`free, this`next
      ensures Tells(r, Volumes.Write(old(Vol()), fh, data, off), Vol())
      ensures r.Done? ==> (Sound(Vol()) <==> HarmlessVia(old(Vol()), fh, data, off))
    {
      hide Sound, NodesOf, WriteReg, WriteDir, HarmlessVia;
      ghost var v := Vol();
      if fh !in open {
        NoHandle(v, fh, data, 0, off);
        return Crashed;
      }
      var i := open[fh];
      NodeHere(disk, ds, i);
      if i !in disk.itab {
        NoHandle(v, fh, data, 0, off);
        return Crashed;
      }
      var ok, dk, free', next', count := WriteFile(v, disk, ds, nb, free, next, i, data, off);
      if !ok {
        return Crashed;
      }
      disk, free, next := dk, free', next';
      WriteSoundIff(v, fh, data, off);
      return Done(count);
    }
  }

  /** mount: the superblock is read from its block, then the root directory. Mounting anything but a formatted
      volume and a failed assertion both bring the server down. */
  method Mount(status: nat, nb: nat, sbBlk: DataBlk, dk: Disk) returns (r: Reply<BfsHandle>)
    ensures r.Crashed? <==> status != Format.FORMATTED || !Format.Mountable(nb, dk, Format.ReadSuper(sbBlk))
    ensures !r.Crashed? ==> r.Done? && fresh(r.val) && r.val.Vol() == Format.Mounted(nb, dk, Format.ReadSuper(sbBlk))
  {
    hide Format.ReadSuper, Format.Mounted, DentsAt;
    if status != Format.FORMATTED {
      return Crashed;
    }
    var sb := Format.ReadSuper(sbBlk);
    if sb.root != ROOT_INO || sb.root !in dk.itab || dk.itab[sb.root].blks[0] != Format.DataStart(nb) {
      return Crashed;
    }
    var blk := DentsAt(dk, dk.itab[sb.root].blks[0]);
    if blk[0].name != "." || blk[1].name != ".." {
      return Crashed;
    }
    var h := new BfsHandle(nb, dk, sb);
    return Done(h);
  }

  /** mkfs, then mount: the formatted volume, which satisfies every invariant. */
  method FormatAndMount(nb: nat) returns (h: BfsHandle)
    requires Format.DataStart(nb) < nb < U64
    ensures fresh(h) && h.Vol() == NewVolumes.NewVolume(Format.DataStart(nb), nb) && Inv(h.Vol())
  {
    hide Format.Mountable, Format.Mounted, Inv;
    ghost var order;
    var img;
    img, order := Formatting.Mkfs(nb);
    Format.Formatted(nb);
    var dk := Format.FormattedDisk(Format.DataStart(nb));
    var r := Mount(Format.FORMATTED, nb, Image.BlockAt(img, Format.SB_START), dk);
    return r.val;
  }
}
