/** What holds of a volume between operations. */
module Invariants {
  import opened Layout
  import opened Paths
  import opened Directory
  import opened Raw
  import opened Volumes

  type Nodes = map<nat, Node>

  /** No two reachable names of the directory are equal. */
  ghost predicate DistinctNames(s: seq<Dentry>) {
    forall i, j :: 0 <= i < j < |s| && Walkable(s[i].name) ==> s[i].name != s[j].name
  }

  /** Slots 0 and 1 are "." and ".."; every other slot is blank or holds a full path name. */
  ghost predicate DotsFirst(s: seq<Dentry>) {
    && |s| >= 2 && s[0].name == "." && s[1].name == ".."
    && forall i :: 2 <= i < |s| ==> s[i] == EMPTY || PathName(s[i].name)
  }

  predicate PathName(name: string) {
    Absolute(name) && name != "/" && |name| < MAX_FILE_NAME_LEN
  }

  /** The bytes of a directory say what its dentries are. */
  ghost predicate Spells(n: Node) {
    forall j: nat {:trigger SlotIn(n.bytes, j)} :: j < |n.slots| ==> n.slots[j] == SlotIn(n.bytes, j)
  }

  lemma SpellsAll(n: Node)
    requires |n.bytes| / BLK_SZ * NUM_DIRENTS_PER_BLOCK == |n.slots|
    ensures Spells(n) <==> n.slots == SlotsIn(n.bytes)
  {
    hide SlotIn;
    if Spells(n) {
      forall j | 0 <= j < |n.slots| ensures n.slots[j] == SlotsIn(n.bytes)[j] {
        assert SlotsIn(n.bytes)[j] == SlotIn(n.bytes, j);
      }
    }
  }

  ghost predicate DirOk(n: Node, ds: nat) {
    && Clean(n.slots) && DotsFirst(n.slots) && DistinctNames(n.slots)
    && n.links == |LiveSet(n.slots)|
    && Spells(n) && n.dirSize <= |n.bytes| == |n.slots| / NUM_DIRENTS_PER_BLOCK * BLK_SZ
    && |n.slots| % NUM_DIRENTS_PER_BLOCK == 0 && |n.slots| <= MAX_FILE_BLKS * NUM_DIRENTS_PER_BLOCK
    // allocated blocks form a prefix, and the indirect block exists exactly when it is used
    && (forall k :: 0 <= k < MAX_FILE_BLKS ==>
                      (n.own[k] >= ds <==> k < |n.slots| / NUM_DIRENTS_PER_BLOCK))
    && (n.own[IND] >= ds <==> |n.slots| / NUM_DIRENTS_PER_BLOCK > NUM_DIRECT_BLOCKS)
  }

  ghost predicate RegOk(n: Node, ds: nat) {
    && n.slots == [] && n.links == 0
    && |n.bytes| <= MAX_FILE_BYTES
    && (forall k :: 0 <= k < OWN_LEN ==> n.own[k] > ds)
  }

  ghost predicate NodeOk(n: Node, ds: nat) {
    match n.kind case Dir => DirOk(n, ds) case Reg => RegOk(n, ds)
  }

  /** Blocks that have been written lie on a device. */
  ghost predicate OnDevice(n: Node, ds: nat, nb: nat) {
    match n.kind
    case Dir => forall k :: 0 <= k < OWN_LEN && n.own[k] >= ds ==> n.own[k] < nb
    case Reg => n.own[IND] < nb && forall k :: 0 <= k < MAX_FILE_BLKS && k * BLK_SZ < |n.bytes| ==> n.own[k] < nb
  }

  ghost predicate NodesOk(nodes: Nodes, ds: nat, nb: nat) {
    && ROOT_INO in nodes && nodes[ROOT_INO].kind == Dir
    && forall i :: i in nodes ==> NodeOk(nodes[i], ds) && OnDevice(nodes[i], ds, nb)
  }

  /** Place k of inode i holds block b. */
  predicate Holds(nodes: Nodes, b: nat, i: nat, k: nat) {
    i in nodes && k < OWN_LEN && nodes[i].own[k] == b
  }

  /** Every id in use was handed out once, to one place of one inode; the first data block is
      the root directory's. */
  ghost predicate Owned(nodes: Nodes, ds: nat, next: nat) {
    && (forall b: nat, i: nat, k: nat :: Holds(nodes, b, i, k) ==> b < next && (b == ds ==> i == ROOT_INO && k == 0))
    && (forall b: nat, i: nat, k: nat, j: nat, l: nat ::
          b >= ds && Holds(nodes, b, i, k) && Holds(nodes, b, j, l) ==> i == j && k == l)
  }

  /** Slot j of directory d names a file. */
  predicate Names(nodes: Nodes, d: nat, j: nat) {
    d in nodes && nodes[d].kind == Dir && j < |nodes[d].slots| && Absolute(nodes[d].slots[j].name)
  }

  /** Names lead to inodes in `keys`, and no inode has two names. */
  ghost predicate Named(nodes: Nodes, keys: set<nat>) {
    && (forall d, j: nat :: Names(nodes, d, j) ==>
                              nodes[d].slots[j].ino in keys && nodes[d].slots[j].ino >= FIRST_UNRESERVED_INO)
    && (forall d, j: nat, e, l: nat ::
          Names(nodes, d, j) && Names(nodes, e, l) && nodes[d].slots[j].ino == nodes[e].slots[l].ino
          ==> d == e && j == l)
  }

  /** Inode numbers below n whose bit is set. */
  function SetBits(bits: Bits, n: nat): set<nat>
    requires n <= |bits|
  {
    set i: nat | i < n && bits[i]
  }

  ghost predicate Marked(bits: Bits, inoFree: nat, keys: set<nat>) {
    && (forall i :: 0 <= i < |bits| ==> (bits[i] <==> i < FIRST_UNRESERVED_INO || i in keys))
    && (forall i :: i in keys ==> i == ROOT_INO || FIRST_UNRESERVED_INO <= i < NUM_INODES)
    && |SetBits(bits, NUM_INODES)| + inoFree == NUM_INODES
  }

  /** Handles that name inode i. */
  function HandlesOf(open: map<nat, nat>, i: nat): set<nat> {
    set fh | fh in open && open[fh] == i
  }

  ghost predicate Handled(nodes: Nodes, open: map<nat, nat>, nextFd: nat) {
    && (forall fh :: fh in open ==> open[fh] in nodes)
    && (forall i :: i in nodes ==>
                      nodes[i].refs == |HandlesOf(open, i)| + if i == ROOT_INO then 1 else 0)
    && |open| <= MAX_OPEN_FILES
    && (forall fh :: fh in open ==> START_FD <= fh < FD_MOD && (nextFd != 0 ==> fh < nextFd))
    && nextFd < FD_MOD && (nextFd == 0 || nextFd >= START_FD)
  }

  ghost predicate InUse(nodes: Nodes, b: nat) {
    exists i: nat, k: nat :: Holds(nodes, b, i, k)
  }

  /** Ids above the root's block held by some inode. */
  ghost function Held(nodes: Nodes, ds: nat, next: nat): set<nat> {
    set b: nat | ds < b < next && InUse(nodes, b)
  }

  ghost predicate Counted(v: Volume) {
    v.ds + 1 <= v.next && v.free + |Held(v.nodes, v.ds, v.next)| <= v.nb - v.ds
  }

  /** Everything but the open-file table: this much survives any operation. */
  ghost predicate Sound(v: Volume) {
    && 1 <= v.ds < v.nb
    && NodesOk(v.nodes, v.ds, v.nb)
    && Owned(v.nodes, v.ds, v.next)
    && Named(v.nodes, v.nodes.Keys)
    && Marked(v.bitmap, v.inoFree, v.nodes.Keys)
    && Counted(v)
  }

  ghost predicate Inv(v: Volume) {
    Sound(v) && Handled(v.nodes, v.open, v.nextFd)
  }
}
