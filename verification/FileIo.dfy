/** Reading and writing a file's bytes block by block, with blocks allocated as they are needed. */
module FileIo {
  import opened Layout
  import opened Volumes
  import opened Growth
  import opened Blocks

  // ---- reading ----------------------------------------------------------------------

  /** Where a read of size bytes at off ends. */
  function ReadEnd(n: Inode, size: nat, off: nat, c: nat): nat {
    Min(Min(off + size, n.size), c * BLK_SZ)
  }

  /** Id of data block k, or an id below ds when there is none: direct, or from the indirect list. */
  method BlockId(dk: Disk, ds: nat, n: Inode, k: nat, ghost c: nat) returns (b: nat)
    requires ds > 0 && Mapped(OwnOf(dk, ds, n), ds, c) && (c <= NUM_DIRECT_BLOCKS ==> k < NUM_DIRECT_BLOCKS)
    ensures b >= ds <==> k < c
    ensures k < c ==> b == OwnOf(dk, ds, n)[k]
  {
    if k < NUM_DIRECT_BLOCKS {
      assert OwnOf(dk, ds, n)[k] == n.blks[k];
      return n.blks[k];
    }
    var ib := IdsAt(dk, n.blks[NUM_DIRECT_BLOCKS]);
    if k - NUM_DIRECT_BLOCKS >= NUM_BLKS_PER_IB {
      return 0;
    }
    assert OwnOf(dk, ds, n)[k] == ib[k - NUM_DIRECT_BLOCKS];
    return ib[k - NUM_DIRECT_BLOCKS];
  }

  /** The read loop of bfs_read: it stops at the end of the file or at a block that is not there. */
  method ReadBytes(dk: Disk, ds: nat, n: Inode, size: nat, off: nat, ghost c: nat) returns (buf: seq<Byte>)
    requires ds > 0 && Mapped(OwnOf(dk, ds, n), ds, c)
    requires c <= NUM_DIRECT_BLOCKS ==> n.size <= NUM_DIRECT_BLOCKS * BLK_SZ
    ensures var all, hi := BytesOf(dk, OwnOf(dk, ds, n), n.size), ReadEnd(n, size, off, c);
            buf == if off < hi then all[off..hi] else []
  {
    ghost var own := OwnOf(dk, ds, n);
    ghost var all := BytesOf(dk, own, n.size);
    ghost var hi := ReadEnd(n, size, off, c);
    hide OwnOf, BytesOf, DataAt, IdsAt, Mapped;
    assert c <= MAX_FILE_BLKS by { MappedBound(own, ds, c); }
    buf := [];
    if off > n.size {
      return;
    }
    var left, cur, k := size, off, off / BLK_SZ;
    while left > 0
      invariant cur + left == off + size && off <= cur <= n.size
      invariant cur < n.size && left > 0 ==> k == cur / BLK_SZ
      invariant buf == all[off..cur] && (cur == off || cur <= hi)
    {
      if cur >= n.size {
        break;
      }
      var b := BlockId(dk, ds, n, k, c);
      if b < ds {
        break;
      }
      var pos := cur % BLK_SZ;
      var most := Min(left, BLK_SZ - pos);
      var sz := if cur + most > n.size then n.size - cur else most;
      ReadStep(dk, own, all, k, off, cur, sz);
      buf := buf + DataAt(dk, b)[pos..pos + sz];
      cur, left, k := cur + sz, left - sz, k + 1;
    }
    assert cur >= hi;
  }

  lemma ReadStep(dk: Disk, own: Own, all: seq<Byte>, k: nat, off: nat, cur: nat, sz: nat)
    requires all == BytesOf(dk, own, |all|) && k == cur / BLK_SZ < MAX_FILE_BLKS
    requires cur % BLK_SZ + sz <= BLK_SZ && off <= cur && cur + sz <= |all|
    ensures all[off..cur] + DataAt(dk, own[k])[cur % BLK_SZ..cur % BLK_SZ + sz] == all[off..cur + sz]
  {
    var a, b := all[cur..cur + sz], DataAt(dk, own[k])[cur % BLK_SZ..cur % BLK_SZ + sz];
    forall x | 0 <= x < sz ensures a[x] == b[x] {
      assert (cur + x) / BLK_SZ == k && (cur + x) % BLK_SZ == cur % BLK_SZ + x;
    }
    assert all[off..cur] + a == all[off..cur + sz];
  }

  lemma MappedBound(own: Own, ds: nat, c: nat)
    requires Mapped(own, ds, c)
    ensures c <= MAX_FILE_BLKS
  {
  }

  // ---- writing ----------------------------------------------------------------------

  /** What a write changes: the blocks, the allocator's counters and the inode it holds in memory. */
  datatype Work = Work(dk: Disk, free: nat, next: nat, n: Inode)

  function Ids(s: Work, ds: nat): Own {
    OwnOf(s.dk, ds, s.n)
  }

  ghost predicate Shape(s: Work, ds: nat, c: nat) {
    0 < ds <= s.next && Mapped(Ids(s, ds), ds, c) && Apart(Ids(s, ds), ds, s.next)
  }

  /** Data block number c cannot be added: no block left, or one of those written would be off the devices. */
  predicate Short(s: Work, ds: nat, nb: nat, c: nat) {
    s.free < Need(c) || s.next + Need(c) > nb || (c > NUM_DIRECT_BLOCKS && Ids(s, ds)[IND] >= nb)
  }

  /** Only the indirect list of n differs. */
  ghost predicate ListOnly(dk: Disk, dk': Disk, n: Inode) {
    dk' == dk.(ids := dk'.ids) && forall x: nat :: x != n.blks[NUM_DIRECT_BLOCKS] ==> IdsAt(dk', x) == IdsAt(dk, x)
  }

  /** t is s with data block number k there, allocated if it was not. */
  ghost predicate Claimed(s: Work, t: Work, ds: nat, nb: nat, k: nat, c: nat)
    requires k < MAX_FILE_BLKS
  {
    if k < c then t == s
    else
      && k == c && t.next == s.next + Need(c) && t.free + Need(c) == s.free
      && Ids(t, ds) == GrowOwn(Ids(s, ds), c, s.next)
      && t.n == s.n.(blks := t.n.blks) && (c > NUM_DIRECT_BLOCKS ==> t.n == s.n && Ids(s, ds)[IND] < nb)
      && (if k < NUM_DIRECT_BLOCKS then t.dk == s.dk else ListOnly(s.dk, t.dk, t.n))
  }

  /** The block a write is about to touch, allocated first if it is not there. */
  method ClaimBlk(s: Work, ds: nat, nb: nat, k: nat, ghost c: nat) returns (ok: bool, t: Work, b: nat, isNew: bool)
    requires Shape(s, ds, c) && k <= c && k < MAX_FILE_BLKS
    ensures if ok then Claimed(s, t, ds, nb, k, c) && b == Ids(t, ds)[k] && isNew == (k == c)
            else k == c && Short(s, ds, nb, c)
  {
    hide OwnOf, GrowOwn;
    ghost var own := Ids(s, ds);
    var n := s.n;
    if k < NUM_DIRECT_BLOCKS {
      assert own[k] == n.blks[k];
      if n.blks[k] < ds {
        if s.free == 0 {
          return false, s, 0, true;
        }
        b := s.next;
        t := Work(s.dk, s.free - 1, s.next + 1, n.(blks := n.blks[k := b]));
        GrowDirect(s.dk, t.dk, ds, n, k, b, n.links);
        GrowShape(own, ds, k, s.next);
        return true, t, b, true;
      }
      return true, s, n.blks[k], false;
    }
    assert own[k] == IdAt(s.dk, ds, n, k) && own[IND] == n.blks[NUM_DIRECT_BLOCKS];
    var x := k - NUM_DIRECT_BLOCKS;
    if n.blks[NUM_DIRECT_BLOCKS] < ds {
      if s.free == 0 || s.next >= nb || s.free == 1 {
        return false, s, 0, true;
      }
      var ind := s.next;
      b := ind + 1;
      var ib: IdBlk := seq(NUM_BLKS_PER_IB, _ => 0);
      t := Work(s.dk.(ids := s.dk.ids[ind := ib[x := b]]), s.free - 2, s.next + 2,
                n.(blks := n.blks[NUM_DIRECT_BLOCKS := ind]));
      GrowIndirect(s.dk, t.dk, ds, n, ind, n.links);
      GrowShape(own, ds, k, s.next);
      return true, t, b, true;
    }
    var ind := n.blks[NUM_DIRECT_BLOCKS];
    var ib := IdsAt(s.dk, ind);
    if ib[x] < ds {
      if s.free == 0 || ind >= nb {
        return false, s, 0, true;
      }
      b := s.next;
      t := Work(s.dk.(ids := s.dk.ids[ind := ib[x := b]]), s.free - 1, s.next + 1, n);
      GrowListed(s.dk, t.dk, ds, n, x, b, n.links);
      GrowShape(own, ds, k, s.next);
      return true, t, b, true;
    }
    return true, s, ib[x], false;
  }

  /** Up to cur the blocks hold the payload w from start on; everything else in the first c0 of them is
      as it was in dk0, and zero in those that came since. */
  ghost predicate Written(dk: Disk, own: Own, dk0: Disk, own0: Own, c0: nat, c: nat, start: nat, w: seq<Byte>,
                          cur: nat) {
    && start <= cur <= start + |w|
    && forall j: nat :: j < c * BLK_SZ ==>
                          ByteAt(dk, own, j) == if start <= j < cur then w[j - start]
                          else if j < c0 * BLK_SZ then ByteAt(dk0, own0, j) else 0
  }

  lemma WrittenStep(dk: Disk, dk': Disk, own: Own, own': Own, dk0: Disk, own0: Own, c0: nat, c: nat, start: nat,
                    w: seq<Byte>, cur: nat, k: nat, sz: nat, base: DataBlk, blk: DataBlk)
    requires Written(dk, own, dk0, own0, c0, c, start, w, cur) && c0 <= c <= MAX_FILE_BLKS
    requires k == cur / BLK_SZ < MAX_FILE_BLKS && cur % BLK_SZ + sz <= BLK_SZ && cur + sz <= start + |w|
    requires cur <= c * BLK_SZ
    requires forall l :: 0 <= l < c ==> own'[l] == own[l]
    requires forall l :: 0 <= l < MAX_FILE_BLKS && l != k ==> own'[l] != own'[k]
    requires k < c && sz < BLK_SZ ==> base == DataAt(dk, own[k])
    requires k == c ==> base == seq(BLK_SZ, _ => 0)
    requires var pos := cur % BLK_SZ; blk == base[..pos] + w[cur - start..cur - start + sz] + base[pos + sz..]
    requires dk'.data == dk.data[own'[k] := blk]
    ensures Written(dk', own', dk0, own0, c0, if k == c then c + 1 else c, start, w, cur + sz)
  {
    var pos, c' := cur % BLK_SZ, if k == c then c + 1 else c;
    assert k <= c && cur == k * BLK_SZ + pos;
    forall j: nat | j < c' * BLK_SZ
      ensures ByteAt(dk', own', j) == if start <= j < cur + sz then w[j - start]
                                      else if j < c0 * BLK_SZ then ByteAt(dk0, own0, j) else 0
    {
      if j / BLK_SZ == k {
        BlockByte(dk', own', start, w, cur, k, sz, base, blk, j);
        if !(cur <= j < cur + sz) {
          assert sz < BLK_SZ;
          if k < c {
            assert ByteAt(dk, own, j) == DataAt(dk, own[k])[j % BLK_SZ];
          }
        }
      } else {
        OtherByte(dk, dk', own, own', c, k, blk, j);
      }
    }
  }

  lemma BlockByte(dk: Disk, own: Own, start: nat, w: seq<Byte>, cur: nat, k: nat, sz: nat, base: DataBlk,
                  blk: DataBlk, j: nat)
    requires k == cur / BLK_SZ == j / BLK_SZ < MAX_FILE_BLKS && cur % BLK_SZ + sz <= BLK_SZ
    requires start <= cur && cur + sz <= start + |w|
    requires var pos := cur % BLK_SZ; blk == base[..pos] + w[cur - start..cur - start + sz] + base[pos + sz..]
    requires DataAt(dk, own[k]) == blk
    ensures ByteAt(dk, own, j) == if cur <= j < cur + sz then w[j - start] else base[j % BLK_SZ]
  {
    hide DataAt;
    var pos, x := cur % BLK_SZ, j % BLK_SZ;
    assert j - cur == x - pos;
    if pos <= x < pos + sz {
      assert blk[x] == w[cur - start..cur - start + sz][x - pos];
    } else {
      assert blk[x] == base[x];
    }
  }

  lemma OtherByte(dk: Disk, dk': Disk, own: Own, own': Own, c: nat, k: nat, blk: DataBlk, j: nat)
    requires j / BLK_SZ != k < MAX_FILE_BLKS && j / BLK_SZ < c <= MAX_FILE_BLKS
    requires forall l :: 0 <= l < c ==> own'[l] == own[l]
    requires forall l :: 0 <= l < MAX_FILE_BLKS && l != k ==> own'[l] != own'[k]
    requires dk'.data == dk.data[own'[k] := blk]
    ensures ByteAt(dk', own', j) == ByteAt(dk, own, j)
  {
  }

  /** Blocks that were neither the file's nor still to be handed out are untouched. */
  ghost predicate Kept(s: Work, t: Work, ds: nat) {
    && t.dk == s.dk.(ids := t.dk.ids, data := t.dk.data)
    && s.next <= t.next
    && (forall k :: 0 <= k < OWN_LEN ==> Ids(t, ds)[k] == Ids(s, ds)[k] || Ids(t, ds)[k] >= s.next)
    && (forall b: nat :: b < ds || (b < s.next && b !in Ids(s, ds)) ==> SameBlock(s.dk, t.dk, b))
  }

  lemma KeptClaim(s: Work, t: Work, u: Work, ds: nat, c: nat)
    requires Kept(s, t, ds) && Shape(t, ds, c) && c < MAX_FILE_BLKS && 0 < ds <= s.next
    requires u.next == t.next + Need(c) && Ids(u, ds) == GrowOwn(Ids(t, ds), c, t.next)
    requires if c < NUM_DIRECT_BLOCKS then u.dk == t.dk else ListOnly(t.dk, u.dk, u.n)
    ensures Kept(s, u, ds) && Shape(u, ds, c + 1)
  {
    hide OwnOf;
    GrowShape(Ids(t, ds), ds, c, t.next);
    assert Ids(u, ds)[IND] == u.n.blks[NUM_DIRECT_BLOCKS];
    forall b: nat | b < ds || (b < s.next && b !in Ids(s, ds)) ensures SameBlock(s.dk, u.dk, b) {
      if c >= NUM_DIRECT_BLOCKS {
        assert Ids(u, ds)[IND] >= ds;
        assert b != Ids(u, ds)[IND];
      }
      assert SameBlock(s.dk, t.dk, b);
    }
  }

  lemma KeptWrite(s: Work, t: Work, u: Work, ds: nat, k: nat, blk: DataBlk)
    requires Kept(s, t, ds) && k < MAX_FILE_BLKS && Ids(t, ds)[k] >= ds && 0 < ds <= s.next
    requires u == t.(dk := t.dk.(data := t.dk.data[Ids(t, ds)[k] := blk]))
    ensures Kept(s, u, ds) && Ids(u, ds) == Ids(t, ds)
  {
    assert Ids(u, ds) == Ids(t, ds);
    forall b: nat | b < ds || (b < s.next && b !in Ids(s, ds)) ensures SameBlock(s.dk, u.dk, b) {
      assert Ids(s, ds)[k] in Ids(s, ds);
      assert SameBlock(s.dk, t.dk, b);
    }
  }

  /** Where a write that started in s stands once it has reached cur. */
  ghost predicate Progress(s: Work, t: Work, ds: nat, nb: nat, start: nat, w: seq<Byte>, cur: nat, c0: nat, c: nat) {
    && c0 <= c && Shape(t, ds, c) && Kept(s, t, ds) && 0 < ds <= s.next
    && Written(t.dk, Ids(t, ds), s.dk, Ids(s, ds), c0, c, start, w, cur)
    && t.n == s.n.(blks := t.n.blks) && (c0 > NUM_DIRECT_BLOCKS ==> t.n == s.n)
    && Ids(t, ds) == GrowTo(Ids(s, ds), c0, c, s.next)
    && s.n.size <= c0 * BLK_SZ && start <= cur <= c * BLK_SZ
    && (c == c0 ==> t.n == s.n && t.free == s.free && t.next == s.next && Ids(t, ds) == Ids(s, ds))
    && (c > c0 ==> && cur > s.n.size && cur > (c - 1) * BLK_SZ && t.next <= nb
                   && (c0 > NUM_DIRECT_BLOCKS ==> Ids(s, ds)[IND] < nb))
    && t.next == s.next + Needed(c0, c) && t.free + Needed(c0, c) == s.free
    && (c0 > NUM_DIRECT_BLOCKS ==> Ids(t, ds)[IND] == Ids(s, ds)[IND])
    && (c0 <= NUM_DIRECT_BLOCKS < c ==> Ids(t, ds)[IND] < nb)
    && (forall k :: 0 <= k < c0 ==> Ids(t, ds)[k] == Ids(s, ds)[k])
    && (forall k :: c0 <= k < c ==> Ids(t, ds)[k] < t.next)
    && (start < cur ==> Reaches(Ids(t, ds), nb, start, cur))
  }

  lemma ClaimProgress(s: Work, t: Work, u: Work, ds: nat, nb: nat, start: nat, w: seq<Byte>, cur: nat, c0: nat, c: nat)
    requires Progress(s, t, ds, nb, start, w, cur, c0, c) && c < MAX_FILE_BLKS
    requires u.next == t.next + Need(c) && Ids(u, ds) == GrowOwn(Ids(t, ds), c, t.next)
    requires u.n == t.n.(blks := u.n.blks) && (c > NUM_DIRECT_BLOCKS ==> u.n == t.n)
    requires if c < NUM_DIRECT_BLOCKS then u.dk == t.dk else ListOnly(t.dk, u.dk, u.n)
    ensures Shape(u, ds, c + 1) && Kept(s, u, ds)
    ensures u.n == s.n.(blks := u.n.blks) && (c0 > NUM_DIRECT_BLOCKS ==> u.n == s.n) && u.dk.data == t.dk.data
    ensures Ids(u, ds) == GrowTo(Ids(s, ds), c0, c + 1, s.next)
    ensures forall k :: 0 <= k < MAX_FILE_BLKS && k != c ==> Ids(u, ds)[k] == Ids(t, ds)[k]
  {
    hide Written, Kept, Mapped, Apart, OwnOf, GrowOwn;
    GrowShape(Ids(t, ds), ds, c, t.next);
    KeptClaim(s, t, u, ds, c);
  }

  lemma ApartAt(t: Work, ds: nat, c: nat, k: nat)
    requires Shape(t, ds, c) && k < c
    ensures k < MAX_FILE_BLKS && Ids(t, ds)[k] >= ds
    ensures forall l :: 0 <= l < MAX_FILE_BLKS && l != k ==> Ids(t, ds)[l] != Ids(t, ds)[k]
  {
  }

  /** A block past the devices: one of the file's own, or one that was just handed out. */
  lemma OffDevice(s: Work, t: Work, t': Work, ds: nat, nb: nat, start: nat, w: seq<Byte>, cur: nat, k: nat,
                  c0: nat, c: nat)
    requires Progress(s, t, ds, nb, start, w, cur, c0, c) && k <= c && k == cur / BLK_SZ < MAX_FILE_BLKS
    requires cur < start + |w|
    requires Claimed(t, t', ds, nb, k, c) && Ids(t', ds)[k] >= nb
    ensures (k < c0 && Ids(s, ds)[k] >= nb) || Unaffordable(Ids(s, ds), s.free, s.next, nb, c0, k + 1)
  {
    hide Written, Kept, OwnOf, Apart, Ids, GrowTo;
    if k == c {
      GrowShape(Ids(t, ds), ds, c, t.next);
    }
  }

  /** No block to be had for data block number c. */
  lemma NoBlock(s: Work, t: Work, ds: nat, nb: nat, start: nat, w: seq<Byte>, cur: nat, c0: nat, c: nat)
    requires Progress(s, t, ds, nb, start, w, cur, c0, c) && Short(t, ds, nb, c)
    ensures Unaffordable(Ids(s, ds), s.free, s.next, nb, c0, c + 1)
  {
    hide Written, Kept, OwnOf, Mapped, Apart, Shape, Ids, GrowTo;
  }

  lemma PutProgress(s: Work, t: Work, t': Work, u: Work, ds: nat, nb: nat, start: nat, w: seq<Byte>, cur: nat,
                    k: nat, sz: nat, c0: nat, c: nat, base: DataBlk, blk: DataBlk)
    requires Progress(s, t, ds, nb, start, w, cur, c0, c) && k == cur / BLK_SZ < MAX_FILE_BLKS && k <= c
    requires Claimed(t, t', ds, nb, k, c) && Ids(t', ds)[k] < nb
    requires 0 < sz <= BLK_SZ - cur % BLK_SZ && cur + sz <= start + |w|
    requires k < c && sz < BLK_SZ ==> base == DataAt(t'.dk, Ids(t', ds)[k])
    requires k == c ==> base == seq(BLK_SZ, _ => 0)
    requires var pos := cur % BLK_SZ; blk == base[..pos] + w[cur - start..cur - start + sz] + base[pos + sz..]
    requires u == t'.(dk := t'.dk.(data := t'.dk.data[Ids(t', ds)[k] := blk]))
    ensures Progress(s, u, ds, nb, start, w, cur + sz, c0, if k == c then c + 1 else c)
  {
    hide Written, Kept, OwnOf, Mapped, Apart, Shape, Ids, GrowTo, ListOnly;
    LimitIs(t, ds, c);
    var c' := if k == c then c + 1 else c;
    if k == c {
      ClaimProgress(s, t, t', ds, nb, start, w, cur, c0, c);
    }
    ApartAt(t', ds, c', k);
    KeptWrite(s, t', u, ds, k, blk);
    ShapeKept(t', u, ds, c');
    WrittenStep(t.dk, u.dk, Ids(t, ds), Ids(u, ds), s.dk, Ids(s, ds), c0, c, start, w, cur, k, sz, base, blk);
  }

  lemma ShapeKept(t: Work, u: Work, ds: nat, c: nat)
    requires Shape(t, ds, c) && Ids(u, ds) == Ids(t, ds) && u.next == t.next
    ensures Shape(u, ds, c)
  {
  }

  /** One turn of the write loop: the rest of a block, or what is left of the payload. */
  method PutBlock(t: Work, ds: nat, nb: nat, start: nat, w: seq<Byte>, cur: nat, left: nat, k: nat,
                  ghost s: Work, ghost c0: nat, ghost c: nat)
    returns (ok: bool, u: Work, sz: nat, isNew: bool)
    requires Progress(s, t, ds, nb, start, w, cur, c0, c)
    requires left > 0 && cur + left == start + |w| && k == cur / BLK_SZ < MAX_FILE_BLKS
    ensures sz == Min(left, BLK_SZ - cur % BLK_SZ)
    ensures ok ==> isNew == (k == c) && Progress(s, u, ds, nb, start, w, cur + sz, c0, if k == c then c + 1 else c)
    ensures !ok ==> (k < c0 && Ids(s, ds)[k] >= nb) || Unaffordable(Ids(s, ds), s.free, s.next, nb, c0, k + 1)
  {
    hide Claimed, Short, Ids;
    sz := Min(left, BLK_SZ - cur % BLK_SZ);
    assert k <= c && Shape(t, ds, c);
    hide Progress, Shape;
    var t', b;
    ok, t', b, isNew := ClaimBlk(t, ds, nb, k, c);
    if !ok {
      NoBlock(s, t, ds, nb, start, w, cur, c0, c);
      return false, t, sz, isNew;
    }
    if b >= nb {
      OffDevice(s, t, t', ds, nb, start, w, cur, k, c0, c);
      return false, t, sz, isNew;
    }
    var pos := cur % BLK_SZ;
    var base: DataBlk := if !isNew && sz < BLK_SZ then DataAt(t'.dk, b) else seq(BLK_SZ, _ => 0);
    var blk: DataBlk := base[..pos] + w[cur - start..cur - start + sz] + base[pos + sz..];
    u := t'.(dk := t'.dk.(data := t'.dk.data[b := blk]));
    PutProgress(s, t, t', u, ds, nb, start, w, cur, k, sz, c0, c, base, blk);
  }

  ghost function Bytes(s: Work, ds: nat): seq<Byte> {
    BytesOf(s.dk, Ids(s, ds), s.n.size)
  }

  lemma Begins(s: Work, ds: nat, nb: nat, start: nat, w: seq<Byte>, c: nat)
    requires Shape(s, ds, c) && s.n.size <= c * BLK_SZ && start <= s.n.size
    ensures Progress(s, s, ds, nb, start, w, start, c, c)
  {
  }

  /** What a write of w from start on, over a file that had c0 blocks, does once it has got to cur. */
  ghost predicate Placed(s: Work, t: Work, ds: nat, start: nat, w: seq<Byte>, c0: nat, c: nat)
    requires c0 <= c <= MAX_FILE_BLKS
  {
    && Kept(s, t, ds) && Shape(t, ds, c)
    && Ids(t, ds) == GrowTo(Ids(s, ds), c0, c, s.next)
    && t.next == s.next + Needed(c0, c) && t.free + Needed(c0, c) == s.free
    && t.n == s.n.(blks := t.n.blks, size := t.n.size) && (c0 > NUM_DIRECT_BLOCKS ==> t.n.blks == s.n.blks)
    && BytesOf(t.dk, Ids(t, ds), c * BLK_SZ) == Overwrite(BytesOf(s.dk, Ids(s, ds), c0 * BLK_SZ), start, w, c * BLK_SZ)
  }

  lemma PlacedFacts(s: Work, t: Work, ds: nat, start: nat, w: seq<Byte>, c0: nat, c: nat)
    requires c0 <= c <= MAX_FILE_BLKS && Placed(s, t, ds, start, w, c0, c)
    ensures Kept(s, t, ds) && t.dk.itab == s.dk.itab && t.dk.bitmap == s.dk.bitmap
    ensures t.next == s.next + Needed(c0, c) && t.free + Needed(c0, c) == s.free
  {
  }

  lemma PlacedAll(s: Work, t: Work, ds: nat, nb: nat, start: nat, w: seq<Byte>, cur: nat, c0: nat, c: nat)
    requires Progress(s, t, ds, nb, start, w, cur, c0, c)
    requires cur == start + |w| || c * BLK_SZ <= cur
    ensures c0 <= c <= MAX_FILE_BLKS && Placed(s, t, ds, start, w, c0, c)
  {
    hide Kept, OwnOf, GrowTo;
    var a := BytesOf(t.dk, Ids(t, ds), c * BLK_SZ);
    var b := Overwrite(BytesOf(s.dk, Ids(s, ds), c0 * BLK_SZ), start, w, c * BLK_SZ);
    forall j: nat | j < c * BLK_SZ ensures a[j] == b[j] {
      assert a[j] == ByteAt(t.dk, Ids(t, ds), j);
    }
  }

  /** The loop has gone as far as it can; what it used up is what the whole write needs. */
  lemma Reached(s: Work, t: Work, ds: nat, nb: nat, start: nat, w: seq<Byte>, cur: nat, c0: nat, c: nat)
    requires Progress(s, t, ds, nb, start, w, cur, c0, c)
    requires cur == start + |w| || MAX_FILE_BYTES <= cur < start + |w|
    ensures c == BlocksTo(c0, start + |w|) && cur == Min(start + |w|, MAX_FILE_BYTES)
    ensures Affordable(Ids(s, ds), s.free, s.next, nb, c0, start, start + |w|)
  {
    hide Kept, OwnOf, Written, GrowTo, Apart;
    assert c <= MAX_FILE_BLKS;
  }

  lemma SizeOnly(t: Work, ds: nat, m: nat)
    ensures Ids(t.(n := t.n.(size := m)), ds) == Ids(t, ds)
  {
    assert OwnOf(t.dk, ds, t.n.(size := m)) == OwnOf(t.dk, ds, t.n);
  }

  lemma PlacedSize(s: Work, t: Work, ds: nat, start: nat, w: seq<Byte>, c0: nat, c: nat, m: nat)
    requires c0 <= c <= MAX_FILE_BLKS && Placed(s, t, ds, start, w, c0, c)
    ensures Placed(s, t.(n := t.n.(size := m)), ds, start, w, c0, c)
  {
    hide OwnOf, GrowTo, Ids;
    SizeOnly(t, ds, m);
  }

  /** The file's bytes are those of the splice. */
  lemma PlacedSplice(s: Work, t: Work, ds: nat, off: nat, data: seq<Byte>, c0: nat, c: nat)
    requires c0 <= c <= MAX_FILE_BLKS && s.n.size <= c0 * BLK_SZ
    requires Placed(s, t, ds, Min(off, s.n.size), Payload(s.n.size, off, data), c0, c)
    requires t.n.size <= c * BLK_SZ && t.n.size <= |Splice(Bytes(s, ds), off, data)|
    ensures Bytes(t, ds) == Splice(Bytes(s, ds), off, data)[..t.n.size]
  {
    hide Shape, Kept, OwnOf, GrowTo;
    var a, b := Bytes(t, ds), Splice(Bytes(s, ds), off, data);
    forall j: nat | j < t.n.size ensures a[j] == b[j] {
      assert a[j] == BytesOf(t.dk, Ids(t, ds), c * BLK_SZ)[j];
      assert j < c0 * BLK_SZ ==> BytesOf(s.dk, Ids(s, ds), c0 * BLK_SZ)[j] == ByteAt(s.dk, Ids(s, ds), j);
      assert j < s.n.size ==> Bytes(s, ds)[j] == ByteAt(s.dk, Ids(s, ds), j);
    }
  }

  /** The write loop of bfs_write on an inode of any kind whose size lies within its first c0 blocks.
      Unless `stored`, the loop returned early and the inode in memory is not written back. */
  method WriteBytes(s: Work, ds: nat, nb: nat, data: seq<Byte>, off: nat, ghost c0: nat)
    returns (ok: bool, t: Work, count: nat, stored: bool)
    requires Shape(s, ds, c0) && s.n.size <= c0 * BLK_SZ && c0 <= MAX_FILE_BLKS
    ensures ok <==> Affordable(Ids(s, ds), s.free, s.next, nb, c0, Min(off, s.n.size), off + |data|)
    ensures ok ==> Placed(s, t, ds, Min(off, s.n.size), Payload(s.n.size, off, data), c0, BlocksTo(c0, off + |data|))
    ensures ok ==> (stored <==> off + |data| <= MAX_FILE_BYTES)
    ensures ok && stored ==>
              && count == |data| && Bytes(t, ds) == Splice(Bytes(s, ds), off, data)
              && t.n.size ==
                 if BlocksTo(c0, off + |data|) > c0 || off + |data| > s.n.size then off + |data| else s.n.size
    ensures ok && !stored ==>
              && count == (MAX_FILE_BYTES - off) % U64 && t.n.size == s.n.size
              && Bytes(t, ds) == Splice(Bytes(s, ds), off, data)[..s.n.size]
  {
    hide Progress, Shape, Kept, OwnOf, Splice, Affordable, Unaffordable, Placed, BlocksTo;
    var size := s.n.size;
    var start := Min(off, size);
    var w := Payload(size, off, data);
    var hole := off - start;
    var cur, left, k, used := start, |w|, start / BLK_SZ, false;
    ghost var c := c0;
    t := s;
    Begins(s, ds, nb, start, w, c0);
    while left > 0
      invariant left >= 0 && cur + left == start + |w| && start <= cur && c0 <= c
      invariant left > 0 ==> k == cur / BLK_SZ
      invariant used <==> c > c0
      invariant Progress(s, t, ds, nb, start, w, cur, c0, c)
    {
      if k - NUM_DIRECT_BLOCKS >= NUM_BLKS_PER_IB {
        SizeSame(s, t, ds, nb, start, w, cur, c0, c);
        WriteEnds(s, t, t, ds, nb, off, data, cur, c0, c);
        return true, t, (cur - start - hole) % U64, false;
      }
      var u, sz, isNew;
      ok, u, sz, isNew := PutBlock(t, ds, nb, start, w, cur, left, k, s, c0, c);
      if !ok {
        NotAffordable(s, ds, nb, c0, start, start + |w|, k);
        return false, t, 0, false;
      }
      t, cur, left, used := u, cur + sz, left - sz, used || isNew;
      c := if k == c then c + 1 else c;
      k := k + 1;
    }
    SizeSame(s, t, ds, nb, start, w, cur, c0, c);
    WriteEnds(s, t, t.(n := t.n.(size := if c > c0 || cur > size then cur else size)), ds, nb, off, data, cur, c0, c);
    if used || cur > t.n.size {
      t := t.(n := t.n.(size := cur));
    }
    return true, t, cur - start - hole, true;
  }

  lemma WriteEnds(s: Work, t: Work, u: Work, ds: nat, nb: nat, off: nat, data: seq<Byte>, cur: nat, c0: nat, c: nat)
    requires Progress(s, t, ds, nb, Min(off, s.n.size), Payload(s.n.size, off, data), cur, c0, c)
    requires cur == off + |data| || MAX_FILE_BYTES <= cur < off + |data|
    requires var m := if cur == off + |data| && (c > c0 || cur > s.n.size) then cur else s.n.size;
             u == t.(n := t.n.(size := m))
    ensures c == BlocksTo(c0, off + |data|) && cur == Min(off + |data|, MAX_FILE_BYTES) && c <= MAX_FILE_BLKS
    ensures Affordable(Ids(s, ds), s.free, s.next, nb, c0, Min(off, s.n.size), off + |data|)
    ensures Placed(s, u, ds, Min(off, s.n.size), Payload(s.n.size, off, data), c0, c)
    ensures Bytes(u, ds) == Splice(Bytes(s, ds), off, data)[..u.n.size] && u.n.size <= |Splice(Bytes(s, ds), off, data)|
    ensures cur == off + |data| ==> Bytes(u, ds) == Splice(Bytes(s, ds), off, data)
  {
    hide OwnOf, Written, Ids, Kept, Affordable, Placed, GrowTo, Shape, BlocksTo;
    var start, w := Min(off, s.n.size), Payload(s.n.size, off, data);
    Reached(s, t, ds, nb, start, w, cur, c0, c);
    LimitIs(t, ds, c);
    PlacedAll(s, t, ds, nb, start, w, cur, c0, c);
    PlacedSize(s, t, ds, start, w, c0, c, u.n.size);
    PlacedSplice(s, u, ds, off, data, c0, c);
  }

  lemma LimitIs(t: Work, ds: nat, c: nat)
    requires Shape(t, ds, c)
    ensures c <= MAX_FILE_BLKS && c * BLK_SZ <= MAX_FILE_BYTES
  {
  }

  lemma SizeSame(s: Work, t: Work, ds: nat, nb: nat, start: nat, w: seq<Byte>, cur: nat, c0: nat, c: nat)
    requires Progress(s, t, ds, nb, start, w, cur, c0, c)
    ensures t.n.size == s.n.size
  {
  }

  /** What stopped the write at block k stops it as a whole. */
  lemma NotAffordable(s: Work, ds: nat, nb: nat, c0: nat, start: nat, end: nat, k: nat)
    requires start < end && start / BLK_SZ <= k < MAX_FILE_BLKS && k * BLK_SZ < end
    requires (k < c0 && Ids(s, ds)[k] >= nb) || Unaffordable(Ids(s, ds), s.free, s.next, nb, c0, k + 1)
    ensures !Affordable(Ids(s, ds), s.free, s.next, nb, c0, start, end)
  {
    hide Ids;
    assert k + 1 <= (end + BLK_SZ - 1) / BLK_SZ;
  }

  /** A file with all its blocks needs them to be on the devices, and nothing else. */
  lemma FullAffordable(s: Work, ds: nat, nb: nat, start: nat, end: nat)
    ensures Affordable(Ids(s, ds), s.free, s.next, nb, MAX_FILE_BLKS, start, end)
       <==> (start < end ==> Reaches(Ids(s, ds), nb, start, end))
  {
    hide Ids;
  }
}
