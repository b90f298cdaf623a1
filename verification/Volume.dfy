/**
 The file system seen file by file: every inode with its flat content, the super-block
 counters, the inode bitmap and the open-file table. The operations below take the same
 branches as the block-level code; `Fatal` is a server error (the run ends there), `Refused`
 an error reported to the client, which leaves the server running.
 */
module Volumes {
  import opened Layout
  import opened Paths
  import opened Directory
  import opened Raw

  datatype Kind = Dir | Reg

  /** `own` lists the block ids held: data blocks 0..523, then the indirect block; ids below
      the data region mean "not allocated". A regular file's `bytes` are its contents; a
      directory's are those of its blocks, `slots` the dentries they hold, and `dirSize` the size
      its inode records, which only bfs_write ever changes. */
  datatype Node = Node(kind: Kind, refs: int, links: int, slots: seq<Dentry>, bytes: seq<Byte>, own: Own, dirSize: nat)

  type Own = s: seq<nat> | |s| == OWN_LEN witness seq(OWN_LEN, _ => 0)

  type Bits = s: seq<bool> | |s| == NUM_IBITMAP_BLOCKS * BLK_SZ_BITS
    witness seq(NUM_IBITMAP_BLOCKS * BLK_SZ_BITS, _ => false)

  datatype Volume = Volume(
    ds: nat,                   // first block of the data region
    nb: nat,                   // number of blocks
    free: nat,                 // no_dblocks_free
    next: nat,                 // next_vbid
    inoFree: nat,              // no_inodes_free
    bitmap: Bits,              // inode bitmap
    nodes: map<nat, Node>,     // inode table and the files' contents
    open: map<nat, nat>,       // open_file_tab
    nextFd: nat)

  datatype Outcome<+T> = Ok(vol: Volume, val: T) | Refused(vol: Volume) | Fatal

  /** Result of looking a name up: the inode, and the directory slot that names it. */
  datatype Look = Found(ino: nat, dir: nat, slot: nat) | Missing | NotDir | Broken

  // ---- looking names up -------------------------------------------------------------

  function Search(nodes: map<nat, Node>, d: nat, q: Path): (r: Look)
    ensures r.Found? ==> d in nodes && nodes[d].kind == Dir && r.dir == d && r.slot < |nodes[d].slots|
    ensures r.Found? ==> nodes[d].slots[r.slot] == Dentry(q, r.ino) && r.ino >= ROOT_INO
  {
    if d !in nodes then Broken
    else if nodes[d].kind != Dir then NotDir
    else
      var s := nodes[d].slots;
      var j := Find(s, q);
      if j < |s| then Found(s[j].ino, d, j) else Missing
  }

  /** The component-by-component walk from the root. */
  function Walk(nodes: map<nat, Node>, q: Path): (r: Look)
    requires Absolute(q)
    ensures r.Found? ==> r.dir in nodes && nodes[r.dir].kind == Dir && r.slot < |nodes[r.dir].slots|
    ensures r.Found? ==> nodes[r.dir].slots[r.slot] == Dentry(q, r.ino) && r.ino >= ROOT_INO
    decreases |q|
  {
    var k := LastSlash(q);
    if k == 0 then Search(nodes, ROOT_INO, q)
    else
      var up := Walk(nodes, q[..k]);
      if up.Found? then Search(nodes, up.ino, q) else up
  }

  function GetDe(nodes: map<nat, Node>, p: Path): Look {
    if !Absolute(p) then Missing
    else if p == "/" then Found(ROOT_INO, ROOT_INO, 0)
    else Walk(nodes, p)
  }

  /** The namespace: the inode a path resolves to, if any. */
  function Resolve(nodes: map<nat, Node>, p: Path): Option<nat> {
    var l := GetDe(nodes, p);
    if l.Found? then Some(l.ino) else None
  }

  // ---- inode numbers and blocks -----------------------------------------------------

  function ClearFrom(bits: seq<bool>, j: nat): (r: nat)
    requires j <= |bits|
    ensures j <= r <= |bits|
    ensures r < |bits| ==> !bits[r]
    ensures forall i :: j <= i < r ==> bits[i]
    decreases |bits| - j
  {
    if j == |bits| || !bits[j] then j else ClearFrom(bits, j + 1)
  }

  /** alloc_ino: the first clear bit; no bit left although some inode counts as free is fatal. */
  function AllocIno(v: Volume): Outcome<nat> {
    if v.inoFree == 0 then Refused(v)
    else
      var i := ClearFrom(v.bitmap, 0);
      if i == |v.bitmap| then Fatal
      else Ok(v.(bitmap := v.bitmap[i := true], inoFree := v.inoFree - 1), i)
  }

  /** SuperBlock::alloc_blk. */
  function AllocBlk(v: Volume): Outcome<nat> {
    if v.free == 0 then Fatal else Ok(v.(free := v.free - 1, next := v.next + 1), v.next)
  }

  /** Number of ids from k on, below hi, that come before the first one not above ds. */
  function RunAbove(own: seq<nat>, ds: nat, k: nat, hi: nat): (r: nat)
    requires k <= hi <= |own|
    ensures r <= hi - k
    ensures forall j :: k <= j < k + r ==> own[j] > ds
    ensures k + r < hi ==> own[k + r] <= ds
    decreases |own| - k
  {
    if k == hi || own[k] <= ds then 0 else 1 + RunAbove(own, ds, k + 1, hi)
  }

  /** delete_inode_iblks: blocks returned to the free count; a partly filled indirect list keeps
      the indirect block itself. */
  function Freed(own: Own, ds: nat): nat {
    var direct := RunAbove(own, ds, 0, NUM_DIRECT_BLOCKS);
    if direct < NUM_DIRECT_BLOCKS || own[IND] <= ds then direct
    else
      var listed := RunAbove(own, ds, NUM_DIRECT_BLOCKS, MAX_FILE_BLKS);
      direct + listed + if listed == NUM_BLKS_PER_IB then 1 else 0
  }

  /** dealloc_ino. Only one bitmap block is loaded; for numbers past its last bit the source indexes
      beyond it, which is undefined and ends the run here. dealloc_blk fails when the free count would
      pass the number of data blocks. */
  function DeallocIno(v: Volume, i: nat): (r: Outcome<()>)
    requires i in v.nodes
    ensures !r.Refused?
  {
    if i == ROOT_INO || i >= BLK_SZ_BITS then Fatal
    else if v.free + Freed(v.nodes[i].own, v.ds) > v.nb - v.ds then Fatal
    else Ok(v.(bitmap := v.bitmap[i := false],
            inoFree := v.inoFree + 1,
            free := v.free + Freed(v.nodes[i].own, v.ds),
            nodes := v.nodes - {i}), ())
  }

  // ---- directory updates ------------------------------------------------------------

  /** Ids held after the directory gains its block number c. */
  function GrowOwn(own: Own, c: nat, next: nat): Own
    requires c < MAX_FILE_BLKS
  {
    if c == NUM_DIRECT_BLOCKS then own[IND := next][c := next + 1] else own[c := next]
  }

  /** Directory n with one dentry more, in its first empty slot or at the start of a new block. */
  function WithEntry(n: Node, de: Dentry): Node {
    var e := FirstEmpty(n.slots);
    n.(slots := Insert(n.slots, de), links := n.links + 1,
    bytes := if e < |n.slots| then PutRecord(n.bytes, e, de) else n.bytes + NewRaw(de))
  }

  /** Blocks needed to give an inode its data block number c. */
  function Need(c: nat): nat {
    if c == NUM_DIRECT_BLOCKS then 2 else 1
  }

  /** Blocks needed to go from c to c' data blocks. */
  function Needed(c: nat, c': nat): nat
    requires c <= c'
  {
    c' - c + if c <= NUM_DIRECT_BLOCKS < c' then 1 else 0
  }

  /** Ids held after going from c to c' data blocks. */
  function GrowTo(own: Own, c: nat, c': nat, next: nat): Own
    requires c <= c' <= MAX_FILE_BLKS
  {
    if c == c' then own else GrowOwn(GrowTo(own, c, c' - 1, next), c' - 1, next + Needed(c, c' - 1))
  }

  /** add_dentry_to_direct_blks, then add_dentry_to_indirect_blks. */
  function AddDentry(v: Volume, d: nat, name: PlainPath, ino: nat): (r: Outcome<()>)
    requires d in v.nodes
    ensures !r.Refused?
  {
    var n := v.nodes[d];
    var c := |n.slots| / NUM_DIRENTS_PER_BLOCK;
    if |name| + 1 > MAX_FILE_NAME_LEN then Fatal
    else if FirstEmpty(n.slots) < |n.slots| then
      Ok(v.(nodes := v.nodes[d := WithEntry(n, Dentry(name, ino))]), ())
    else if c >= MAX_FILE_BLKS || v.free < Need(c) || v.next + Need(c) > v.nb then Fatal
    else
      Ok(v.(free := v.free - Need(c), next := v.next + Need(c),
         nodes := v.nodes[d := WithEntry(n, Dentry(name, ino)).(own := GrowOwn(n.own, c, v.next))]), ())
  }

  /** Writing a dentry into slot j of directory d. */
  function SetSlot(v: Volume, d: nat, j: nat, de: Dentry): Volume {
    if d in v.nodes && j < |v.nodes[d].slots| then v.(nodes := v.nodes[d := PutDentry(v.nodes[d], j, de)]) else v
  }

  function PutDentry(n: Node, j: nat, de: Dentry): Node
    requires j < |n.slots|
  {
    n.(slots := n.slots[j := de], bytes := PutRecord(n.bytes, j, de))
  }

  function DropLink(v: Volume, d: nat): Volume
    requires d in v.nodes
  {
    v.(nodes := v.nodes[d := v.nodes[d].(links := v.nodes[d].links - 1)])
  }

  // ---- file handles -----------------------------------------------------------------

  /** alloc_fd and the insertion into the open-file table; the counter is 32 bits wide. */
  function OpenHandle(v: Volume, i: nat): Outcome<nat> {
    if |v.open| == MAX_OPEN_FILES || v.nextFd < START_FD then Fatal
    else Ok(v.(open := v.open[v.nextFd := i], nextFd := (v.nextFd + 1) % FD_MOD), v.nextFd)
  }

  function AddRefs(v: Volume, i: nat, delta: int): Volume
    requires i in v.nodes
  {
    v.(nodes := v.nodes[i := v.nodes[i].(refs := v.nodes[i].refs + delta)])
  }

  // ---- operations -------------------------------------------------------------------

  /** Looking up a directory that must exist: the checks made on every parent directory. */
  function ParentDir(v: Volume, p: Path): Outcome<nat> {
    var up := GetDe(v.nodes, Dirname(p));
    if up.NotDir? then Refused(v)
    else if !up.Found? || up.ino !in v.nodes || v.nodes[up.ino].kind != Dir then Fatal
    else Ok(v, up.ino)
  }

  /** The checks create and mkdir make before they change anything. */
  function NewEntryDir(v: Volume, p: Path): Outcome<nat> {
    if |p| + 1 > MAX_FILE_NAME_LEN then Refused(v)
    else
      var l := GetDe(v.nodes, p);
      if l.Found? || l.NotDir? then Refused(v)
      else if l.Broken? then Fatal
      else ParentDir(v, p)
  }

  /** alloc_ino as its callers use it: reserved numbers are turned down. */
  function NewIno(v: Volume): Outcome<nat> {
    var r := AllocIno(v);
    if r.Ok? && r.val < FIRST_UNRESERVED_INO then Refused(r.vol) else r
  }

  const PREALLOC: nat := OWN_LEN

  /** Ids prealloc_blks hands to a new file: direct blocks, the indirect block, then its list. */
  function PreallocOwn(next: nat): Own {
    seq(OWN_LEN, k => if k < NUM_DIRECT_BLOCKS then next + k
      else if k == IND then next + NUM_DIRECT_BLOCKS
      else next + k + 1)
  }

  /** create once the inode number i is known: dentry, handle, blocks, inode. */
  function NewFile(v: Volume, d: nat, p: PlainPath, i: nat): Outcome<nat>
    requires d in v.nodes
  {
    var added := AddDentry(v, d, p, i);
    if !added.Ok? then Fatal
    else
      var handle := OpenHandle(added.vol, i);
      if !handle.Ok? then Fatal
      else
        var w := handle.vol;
        if w.free < PREALLOC || w.next + NUM_DIRECT_BLOCKS >= w.nb then Fatal
        else
          Ok(w.(free := w.free - PREALLOC, next := w.next + PREALLOC,
             nodes := w.nodes[i := Node(Reg, 1, 0, [], [], PreallocOwn(w.next), 0)]),
             handle.val)
  }

  function Create(v: Volume, p: PlainPath): Outcome<nat> {
    var dir := NewEntryDir(v, p);
    if dir.Refused? then Refused(v) else if dir.Fatal? then Fatal
    else
      var ino := NewIno(v);
      if !ino.Ok? then (if ino.Refused? then Refused(ino.vol) else Fatal)
      else NewFile(ino.vol, dir.val, p, ino.val)
  }

  /** The first block of a new directory: "." and "..". */
  function DotSlots(self: nat, parent: nat): (s: seq<Dentry>)
    ensures |s| == NUM_DIRENTS_PER_BLOCK
    ensures s[0] == Dentry(".", self) && s[1] == Dentry("..", parent)
    ensures forall i :: 2 <= i < |s| ==> s[i] == EMPTY
  {
    [Dentry(".", self), Dentry("..", parent)] + seq(NUM_DIRENTS_PER_BLOCK - 2, _ => EMPTY)
  }

  function FirstOwn(b: nat): Own {
    seq(OWN_LEN, k => if k == 0 then b else 0)
  }

  /** A directory i with nothing but its dots in block b. */
  function DotDir(refs: int, i: nat, parent: nat, b: nat): Node {
    Node(Dir, refs, 2, DotSlots(i, parent), DotRaw(i, parent), FirstOwn(b), 0)
  }

  /** mkdir once the inode number i is known: block, dentry, inode. */
  function NewDir(v: Volume, d: nat, p: PlainPath, i: nat): Outcome<()>
    requires d in v.nodes
  {
    var blk := AllocBlk(v);
    if !blk.Ok? || blk.val >= v.nb then Fatal
    else
      var added := AddDentry(blk.vol, d, p, i);
      if !added.Ok? then Fatal
      else Ok(added.vol.(nodes := added.vol.nodes[i := DotDir(0, i, d, blk.val)]), ())
  }

  function Mkdir(v: Volume, p: PlainPath): Outcome<()> {
    var dir := NewEntryDir(v, p);
    if dir.Refused? then Refused(v) else if dir.Fatal? then Fatal
    else
      var ino := NewIno(v);
      if !ino.Ok? then (if ino.Refused? then Refused(ino.vol) else Fatal)
      else NewDir(ino.vol, dir.val, p, ino.val)
  }

  /** Freeing the inode l names, then blanking the dentry and dropping the parent's link count. */
  function RemoveEntry(v: Volume, p: Path, l: Look): Outcome<()>
    requires l.Found? && l.ino in v.nodes
  {
    var gone := DeallocIno(v, l.ino);
    if !gone.Ok? then Fatal
    else
      var up := ParentDir(gone.vol, p);
      if up.Refused? then Refused(gone.vol) else if up.Fatal? then Fatal
      else Ok(DropLink(SetSlot(gone.vol, l.dir, l.slot, EMPTY), up.val), ())
  }

  function Unlink(v: Volume, p: Path): Outcome<()> {
    var l := GetDe(v.nodes, p);
    if |p| + 1 > MAX_FILE_NAME_LEN then Refused(v)
    else if l.Broken? then Fatal
    else if !l.Found? then Refused(v)
    else if l.ino !in v.nodes then Fatal
    else
      var n := v.nodes[l.ino];
      if n.kind != Reg then Refused(v)
      else if n.links > 0 then Fatal
      else if p != "/" && n.refs > 0 then Refused(v)
      else RemoveEntry(v, p, l)
  }

  function Rmdir(v: Volume, p: Path): Outcome<()> {
    var l := GetDe(v.nodes, p);
    if |p| + 1 > MAX_FILE_NAME_LEN then Refused(v)
    else if l.Broken? then Fatal
    else if !l.Found? then Refused(v)
    else if l.ino !in v.nodes then Fatal
    else
      var n := v.nodes[l.ino];
      if n.kind != Dir then Refused(v)
      else if n.links > 2 then Refused(v)
      else if p != "/" && n.refs > 0 then Refused(v)
      else RemoveEntry(v, p, l)
  }

  /** Taking the source name out of its directory: the first half of a rename. */
  function Detach(v: Volume, fr: Path): Outcome<nat> {
    if |fr| + 1 > MAX_FILE_NAME_LEN then Refused(v)
    else
      var up := ParentDir(v, fr);
      if !up.Ok? then (if up.Refused? then Refused(v) else Fatal)
      else
        var l := GetDe(v.nodes, fr);
        if l.Broken? then Fatal
        else if !l.Found? then Refused(v)
        else if l.ino !in v.nodes then Fatal
        else if v.nodes[l.ino].kind != Reg then Refused(v)
        else Ok(DropLink(SetSlot(v, l.dir, l.slot, EMPTY), up.val), l.ino)
  }

  /** Putting inode f under the name to: the second half of a rename. */
  function Attach(v: Volume, to: PlainPath, f: nat): Outcome<()> {
    var t := GetDe(v.nodes, to);
    if t.Broken? then Fatal
    else if t.NotDir? then Refused(v)
    else if t.Found? then
      if t.ino !in v.nodes then Fatal
      else
        var gone := DeallocIno(v, t.ino);
        if !gone.Ok? then Fatal
        else Ok(SetSlot(gone.vol, t.dir, t.slot, Dentry(to, f)), ())
    else
      var up := ParentDir(v, to);
      if !up.Ok? then (if up.Refused? then Refused(v) else Fatal)
      else AddDentry(v, up.val, to, f)
  }

  function Rename(v: Volume, fr: Path, to: PlainPath): Outcome<()> {
    var out := Detach(v, fr);
    if out.Refused? then Refused(out.vol) else if out.Fatal? then Fatal
    else Attach(out.vol, to, out.val)
  }

  /** bfs_open (kind Reg) and bfs_opendir (kind Dir). */
  function Open(v: Volume, p: Path, kind: Kind): Outcome<nat> {
    var l := GetDe(v.nodes, p);
    if |p| + 1 > MAX_FILE_NAME_LEN then Refused(v)
    else if l.Broken? then Fatal
    else if !l.Found? then Refused(v)
    else if l.ino !in v.nodes then Fatal
    else if v.nodes[l.ino].kind != kind then Refused(v)
    else
      var handle := OpenHandle(v, l.ino);
      if !handle.Ok? then Fatal else Ok(AddRefs(handle.vol, l.ino, 1), handle.val)
  }

  function Release(v: Volume, fh: nat): Outcome<()> {
    if fh !in v.open || v.open[fh] !in v.nodes then Fatal
    else
      var w := AddRefs(v, v.open[fh], -1);
      Ok(w.(open := w.open - {fh}), ())
  }

  /** Overwriting at off: a gap past the old end reads as zeros. */
  function Splice(s: seq<Byte>, off: nat, data: seq<Byte>): (r: seq<Byte>)
    ensures |r| == if off + |data| > |s| then off + |data| else |s|
    ensures forall j :: 0 <= j < |r| ==>
                          r[j] == if off <= j < off + |data| then data[j - off]
                          else if j < |s| then s[j] else 0
  {
    seq(if off + |data| > |s| then off + |data| else |s|,
    j requires 0 <= j =>
      if off <= j < off + |data| then data[j - off] else if j < |s| then s[j] else 0)
  }

  /** The bytes of a file that lie within its size. */
  function Contents(n: Node): seq<Byte> {
    if n.kind == Reg then n.bytes else n.bytes[..Min(n.dirSize, |n.bytes|)]
  }

  /** bfs_read on an open file: the bytes from off on, at most size of them. */
  function Read(v: Volume, fh: nat, size: nat, off: nat): Outcome<seq<Byte>> {
    if fh !in v.open || v.open[fh] !in v.nodes then Fatal
    else
      var s := Contents(v.nodes[v.open[fh]]);
      Ok(v, if off >= |s| then [] else s[off..Min(off + size, |s|)])
  }

  /** Every block the write touches lies on a device. */
  predicate Reaches(own: Own, nb: nat, start: nat, end: nat) {
    forall k :: start / BLK_SZ <= k < MAX_FILE_BLKS && k * BLK_SZ < end ==> own[k] < nb
  }

  /** bfs_write on a regular file, whose blocks are all there. Past the largest file the loop
      returns early: the size is left alone and the count is what fits from off on, in 64-bit
      arithmetic. */
  function WriteReg(v: Volume, i: nat, data: seq<Byte>, off: nat): Outcome<nat>
    requires i in v.nodes
  {
    var n := v.nodes[i];
    var end := off + |data|;
    var spliced := Splice(n.bytes, off, data);
    if !Reaches(n.own, v.nb, Min(off, |n.bytes|), end) then Fatal
    else if end <= MAX_FILE_BYTES then
      Ok(v.(nodes := v.nodes[i := n.(bytes := spliced)]), |data|)
    else
      Ok(v.(nodes := v.nodes[i := n.(bytes := spliced[..|n.bytes|])]), (MAX_FILE_BYTES - off) % U64)
  }

  /** Data blocks that hold the first m bytes of a file, as far as a file can have them. */
  function Covering(m: nat): (c: nat)
    ensures c <= MAX_FILE_BLKS && (m <= MAX_FILE_BYTES ==> m <= c * BLK_SZ)
  {
    Min(MAX_FILE_BLKS, (m + BLK_SZ - 1) / BLK_SZ)
  }

  /** A write from start to end can be done on a file with c blocks: those there are on a device,
      those missing are to be had. */
  predicate Affordable(own: Own, free: nat, next: nat, nb: nat, c: nat, start: nat, end: nat) {
    start < end ==>
      && (forall k :: start / BLK_SZ <= k < c && k < MAX_FILE_BLKS && k * BLK_SZ < end ==> own[k] < nb)
      && !Unaffordable(own, free, next, nb, c, Covering(end))
  }

  /** The blocks for c' data blocks in all are not to be had. */
  predicate Unaffordable(own: Own, free: nat, next: nat, nb: nat, c: nat, c': nat) {
    c < c' && (free < Needed(c, c') || next + Needed(c, c') > nb || (c > NUM_DIRECT_BLOCKS && own[IND] >= nb))
  }

  /** The bytes put down from Min(off, size) on: zeros up to off, then the data. */
  function Payload(size: nat, off: nat, data: seq<Byte>): (w: seq<Byte>)
    ensures |w| == off + |data| - Min(off, size)
    ensures forall i :: 0 <= i < |w| ==>
                          w[i] == if i < off - Min(off, size) then 0 else data[i - (off - Min(off, size))]
  {
    seq(off - Min(off, size), _ => 0) + data
  }

  /** Blocks of bytes, len in all, once w has been put down from start on; new ones were zero. */
  function Overwrite(raw: seq<Byte>, start: nat, w: seq<Byte>, len: nat): (r: seq<Byte>)
    ensures |r| == len
    ensures forall j :: 0 <= j < len ==>
                          r[j] == if start <= j < start + |w| then w[j - start] else if j < |raw| then raw[j] else 0
  {
    seq(len, j requires 0 <= j =>
      if start <= j < start + |w| then w[j - start] else if j < |raw| then raw[j] else 0)
  }

  /** Blocks a directory has, and has after a write up to end. */
  function BlocksOf(n: Node): nat {
    Min(MAX_FILE_BLKS, |n.slots| / NUM_DIRENTS_PER_BLOCK)
  }

  function BlocksTo(c: nat, end: nat): (c': nat)
    ensures c <= c' && (c <= MAX_FILE_BLKS ==> c' <= MAX_FILE_BLKS)
  {
    if c < Covering(end) then Covering(end) else c
  }

  /** Blocks that are the directory's own on disk after a write up to end. The loop that returns
      early past the largest file does not write the inode: blocks it added are lost, unless the
      indirect block, which lists them, was there before. */
  function Staying(n: Node, end: nat): (c: nat)
    ensures BlocksOf(n) <= c <= BlocksTo(BlocksOf(n), end) && c <= MAX_FILE_BLKS
  {
    var c := BlocksOf(n);
    if end <= MAX_FILE_BYTES || c > NUM_DIRECT_BLOCKS then BlocksTo(c, end) else c
  }

  /** The bytes of those blocks, and the dentries they are read as. */
  function RawLeft(n: Node, data: seq<Byte>, off: nat): (raw: seq<Byte>)
    ensures |raw| == Staying(n, off + |data|) * BLK_SZ
  {
    Overwrite(n.bytes, Min(off, n.dirSize), Payload(n.dirSize, off, data), Staying(n, off + |data|) * BLK_SZ)
  }

  function SlotsLeft(n: Node, data: seq<Byte>, off: nat): seq<Dentry> {
    SlotsIn(RawLeft(n, data, off))
  }

  /** The directory a write leaves on disk. */
  function DirWritten(n: Node, next: nat, data: seq<Byte>, off: nat): Node {
    var c, end := BlocksOf(n), off + |data|;
    var grows := end <= MAX_FILE_BYTES && (c < BlocksTo(c, end) || end > n.dirSize);
    n.(slots := SlotsLeft(n, data, off), bytes := RawLeft(n, data, off),
    own := GrowTo(n.own, c, Staying(n, end), next), dirSize := if grows then end else n.dirSize)
  }

  /** bfs_write through the handle of a directory: nothing looks at the kind, so the bytes land in
      the directory's own blocks, from its recorded size on. */
  function WriteDir(v: Volume, i: nat, data: seq<Byte>, off: nat): Outcome<nat>
    requires i in v.nodes
  {
    var n := v.nodes[i];
    var c, end := BlocksOf(n), off + |data|;
    var used := Needed(c, BlocksTo(c, end));
    if Min(off, n.dirSize) == end then Ok(v, 0)
    else if !Affordable(n.own, v.free, v.next, v.nb, c, Min(off, n.dirSize), end) then Fatal
    else
      Ok(v.(free := v.free - used, next := v.next + used, nodes := v.nodes[i := DirWritten(n, v.next, data, off)]),
         if end <= MAX_FILE_BYTES then |data| else (MAX_FILE_BYTES - off) % U64)
  }

  /** bfs_write. */
  function Write(v: Volume, fh: nat, data: seq<Byte>, off: nat): Outcome<nat> {
    if fh !in v.open || v.open[fh] !in v.nodes then Fatal
    else
      var i := v.open[fh];
      if v.nodes[i].kind == Reg then WriteReg(v, i, data, off) else WriteDir(v, i, data, off)
  }
}
