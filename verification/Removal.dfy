/** Taking entries and inodes away keeps the volume sound. */
module Removal {
  import opened Layout
  import opened Paths
  import opened Directory
  import opened Raw
  import opened Volumes
  import opened Invariants
  import opened Growth

  // ---- freed blocks -----------------------------------------------------------------

  /** All ids above ds in an inode's list. */
  function OwnSet(own: Own, ds: nat): set<nat> {
    set k | 0 <= k < OWN_LEN && own[k] > ds :: own[k]
  }

  function Image(own: Own, lo: nat, hi: nat): set<nat>
    requires lo <= hi <= OWN_LEN
  {
    set k | lo <= k < hi :: own[k]
  }

  ghost predicate Injective(own: Own, ds: nat) {
    forall k, l :: 0 <= k < l < OWN_LEN && own[k] > ds ==> own[k] != own[l]
  }

  lemma {:induction false} ImageCard(own: Own, ds: nat, lo: nat, hi: nat)
    requires lo <= hi <= OWN_LEN && Injective(own, ds)
    requires forall k :: lo <= k < hi ==> own[k] > ds
    ensures |Image(own, lo, hi)| == hi - lo
    decreases hi
  {
    if lo < hi {
      ImageCard(own, ds, lo, hi - 1);
      assert Image(own, lo, hi) == Image(own, lo, hi - 1) + {own[hi - 1]};
    } else {
      assert Image(own, lo, hi) == {};
    }
  }

  lemma {:induction false} RunAboveIs(own: Own, ds: nat, k: nat, hi: nat, c: nat)
    requires k <= c <= hi <= OWN_LEN
    requires forall j :: k <= j < c ==> own[j] > ds
    requires c < hi ==> own[c] <= ds
    ensures RunAbove(own, ds, k, hi) == c - k
    decreases c - k
  {
    if k < c {
      RunAboveIs(own, ds, k + 1, hi, c);
    }
  }

  /** Blocks an inode with c data blocks keeps counted as used when it is deleted. */
  function Leak(c: nat): nat {
    if NUM_DIRECT_BLOCKS < c < MAX_FILE_BLKS then 1 else 0
  }

  lemma FreedIs(own: Own, ds: nat, c: nat)
    requires c <= MAX_FILE_BLKS
    requires forall k :: 0 <= k < MAX_FILE_BLKS ==> (own[k] > ds <==> k < c)
    requires own[IND] > ds <==> c > NUM_DIRECT_BLOCKS
    ensures Freed(own, ds) == c + if c == MAX_FILE_BLKS then 1 else 0
  {
    var direct := if c < NUM_DIRECT_BLOCKS then c else NUM_DIRECT_BLOCKS;
    RunAboveIs(own, ds, 0, NUM_DIRECT_BLOCKS, direct);
    if c > NUM_DIRECT_BLOCKS {
      RunAboveIs(own, ds, NUM_DIRECT_BLOCKS, MAX_FILE_BLKS, c);
    }
  }

  lemma OwnSetCard(own: Own, ds: nat, c: nat)
    requires Injective(own, ds) && c <= MAX_FILE_BLKS
    requires forall k :: 0 <= k < MAX_FILE_BLKS ==> (own[k] > ds <==> k < c)
    ensures |OwnSet(own, ds)| == c + if own[IND] > ds then 1 else 0
  {
    ImageCard(own, ds, 0, c);
    if own[IND] > ds {
      assert OwnSet(own, ds) == Image(own, 0, c) + {own[IND]};
    } else {
      assert OwnSet(own, ds) == Image(own, 0, c);
    }
  }

  /** Freeing an inode returns all of its blocks, except the indirect block of a directory whose
      indirect list is partly filled. */
  lemma FreedExact(own: Own, ds: nat, c: nat)
    requires Injective(own, ds) && c <= MAX_FILE_BLKS
    requires forall k :: 0 <= k < MAX_FILE_BLKS ==> (own[k] > ds <==> k < c)
    requires own[IND] > ds <==> c > NUM_DIRECT_BLOCKS
    ensures Freed(own, ds) + Leak(c) == |OwnSet(own, ds)|
  {
    FreedIs(own, ds, c);
    OwnSetCard(own, ds, c);
  }

  /** The inodes' own view of how many blocks they hold. */
  ghost predicate Blocks(n: Node, ds: nat, c: nat) {
    && c <= MAX_FILE_BLKS
    && (forall k :: 0 <= k < MAX_FILE_BLKS ==> (n.own[k] > ds <==> k < c))
    && (n.own[IND] > ds <==> c > NUM_DIRECT_BLOCKS)
  }

  lemma NodeBlocks(nodes: Nodes, ds: nat, nb: nat, next: nat, i: nat) returns (c: nat)
    requires NodesOk(nodes, ds, nb) && Owned(nodes, ds, next) && i in nodes && i != ROOT_INO
    ensures Blocks(nodes[i], ds, c) && Injective(nodes[i].own, ds)
    ensures nodes[i].kind == Dir ==> c == |nodes[i].slots| / NUM_DIRENTS_PER_BLOCK
    ensures nodes[i].kind == Reg ==> c == MAX_FILE_BLKS
  {
    var n := nodes[i];
    c := if n.kind == Dir then |n.slots| / NUM_DIRENTS_PER_BLOCK else MAX_FILE_BLKS;
    forall k: nat | k < OWN_LEN ensures n.own[k] != ds {
      assert Holds(nodes, n.own[k], i, k);
    }
    forall k: nat, l: nat | k < l < OWN_LEN && n.own[k] > ds ensures n.own[k] != n.own[l] {
      assert Holds(nodes, n.own[k], i, k) && Holds(nodes, n.own[l], i, l);
    }
  }

  /** Deleting an inode gives its ids back, and no others. */
  lemma HeldRemove(a: Nodes, b: Nodes, ds: nat, next: nat, i: nat)
    requires Owned(a, ds, next) && i in a
    requires forall x: nat, j: nat, k: nat :: Holds(b, x, j, k) <==> Holds(a, x, j, k) && j != i
    ensures Owned(b, ds, next)
    ensures |Held(b, ds, next)| + |OwnSet(a[i].own, ds)| == |Held(a, ds, next)|
  {
    var h, h', o := Held(a, ds, next), Held(b, ds, next), OwnSet(a[i].own, ds);
    forall x | x in o ensures x in h && x !in h' {
      var k: nat :| k < OWN_LEN && a[i].own[k] == x && x > ds;
      assert Holds(a, x, i, k);
    }
    forall x | x in h ensures x in h' || x in o {
      var j: nat, k: nat :| Holds(a, x, j, k);
      assert j != i ==> Holds(b, x, j, k);
    }
    forall x | x in h' ensures x in h {
      var j: nat, k: nat :| Holds(b, x, j, k);
    }
    assert h == h' + o;
  }

  // ---- the three steps --------------------------------------------------------------

  /** No entry names inode i. */
  ghost predicate Unnamed(nodes: Nodes, i: nat) {
    forall d, j: nat :: Names(nodes, d, j) ==> nodes[d].slots[j].ino != i
  }

  /** Slot j of directory d overwritten by de, the link count moved by delta. */
  function Rewrite(v: Volume, d: nat, j: nat, de: Dentry, delta: int): Volume
    requires d in v.nodes && j < |v.nodes[d].slots|
  {
    v.(nodes := v.nodes[d := PutDentry(v.nodes[d], j, de).(links := v.nodes[d].links + delta)])
  }

  /** A blank slot, or the same name for an inode that has no name yet. */
  ghost predicate Fits(v: Volume, d: nat, j: nat, de: Dentry, delta: int) {
    && Names(v.nodes, d, j)
    && (|| (de == EMPTY && delta == -1)
        || (de.name == v.nodes[d].slots[j].name && Plain(de.name) && delta == 0 && de.ino in v.nodes
            && de.ino >= FIRST_UNRESERVED_INO && Unnamed(v.nodes, de.ino)))
  }

  lemma RewriteDir(n: Node, ds: nat, j: nat, de: Dentry, m: Node)
    requires n.kind == Dir && DirOk(n, ds) && j < |n.slots| && Absolute(n.slots[j].name)
    requires de == EMPTY || (de.name == n.slots[j].name && de.ino >= ROOT_INO)
    requires Storable(de)
    requires m == PutDentry(n, j, de).(links := n.links + if de == EMPTY then -1 else 0)
    ensures DirOk(m, ds)
  {
    hide SlotsIn, SlotIn, PutRecord, Spells;
    SpellsAll(n);
    SpellsAll(m);
    PutSlot(n.bytes, j, de);
    if de == EMPTY {
      ClearLive(n.slots, j);
    } else {
      assert LiveSet(m.slots) == LiveSet(n.slots);
    }
  }

  lemma RewriteNamed(nodes: Nodes, d: nat, j: nat, de: Dentry, m: Node)
    requires Named(nodes, nodes.Keys) && Names(nodes, d, j)
    requires m.kind == Dir && m.slots == nodes[d].slots[j := de]
    requires de == EMPTY || (de.ino in nodes && de.ino >= FIRST_UNRESERVED_INO && Unnamed(nodes, de.ino))
    ensures Named(nodes[d := m], nodes.Keys)
    ensures nodes[d].slots[j].ino != de.ino ==> Unnamed(nodes[d := m], nodes[d].slots[j].ino)
  {
    var b := nodes[d := m];
    forall e, l: nat | Names(b, e, l)
      ensures (e == d && l == j && de != EMPTY) || (Names(nodes, e, l) && b[e].slots[l] == nodes[e].slots[l])
    {
    }
  }

  lemma RewriteSound(v: Volume, d: nat, j: nat, de: Dentry, delta: int)
    requires Sound(v) && Fits(v, d, j, de, delta)
    ensures Sound(Rewrite(v, d, j, de, delta))
    ensures Unnamed(Rewrite(v, d, j, de, delta).nodes, v.nodes[d].slots[j].ino)
  {
    var n, m := v.nodes[d], Rewrite(v, d, j, de, delta).nodes[d];
    RewriteDir(n, v.ds, j, de, m);
    RewriteNamed(v.nodes, d, j, de, m);
    ReplaceSound(v, d, m);
  }

  /** Replacing an inode by one with the same blocks. */
  lemma ReplaceSound(v: Volume, d: nat, m: Node)
    requires Sound(v) && d in v.nodes && m.own == v.nodes[d].own && m.kind == v.nodes[d].kind
    requires NodeOk(m, v.ds) && OnDevice(m, v.ds, v.nb)
    requires Named(v.nodes[d := m], v.nodes.Keys)
    ensures Sound(v.(nodes := v.nodes[d := m]))
  {
    NodesOkUpdate(v.nodes, v.ds, v.nb, d, m);
    SameHolds(v.nodes, v.nodes[d := m], v.ds, v.next);
    assert v.nodes[d := m].Keys == v.nodes.Keys;
  }

  /** Ownership and holdings only depend on the id lists. */
  lemma SameHolds(a: Nodes, b: Nodes, ds: nat, next: nat)
    requires a.Keys == b.Keys && forall i :: i in a ==> b[i].own == a[i].own
    ensures Owned(a, ds, next) ==> Owned(b, ds, next)
    ensures Held(b, ds, next) == Held(a, ds, next)
  {
    forall x: nat, i: nat, k: nat ensures Holds(a, x, i, k) <==> Holds(b, x, i, k) {
    }
    forall x: nat ensures InUse(a, x) <==> InUse(b, x) {
      if InUse(a, x) { var i: nat, k: nat :| Holds(a, x, i, k); assert Holds(b, x, i, k); }
      if InUse(b, x) { var i: nat, k: nat :| Holds(b, x, i, k); assert Holds(a, x, i, k); }
    }
  }

  lemma ClearBit(bits: Bits, inoFree: nat, keys: set<nat>, i: nat)
    requires Marked(bits, inoFree, keys) && i in keys && FIRST_UNRESERVED_INO <= i < |bits|
    ensures Marked(bits[i := false], inoFree + 1, keys - {i})
  {
    assert SetBits(bits, NUM_INODES) == SetBits(bits[i := false], NUM_INODES) + {i};
  }

  lemma DeallocParts(nodes: Nodes, ds: nat, nb: nat, next: nat, i: nat)
    requires NodesOk(nodes, ds, nb) && Owned(nodes, ds, next) && Named(nodes, nodes.Keys)
    requires i in nodes && i != ROOT_INO && Unnamed(nodes, i)
    ensures NodesOk(nodes - {i}, ds, nb) && Owned(nodes - {i}, ds, next)
    ensures Named(nodes - {i}, (nodes - {i}).Keys) && (nodes - {i}).Keys == nodes.Keys - {i}
    ensures |Held(nodes - {i}, ds, next)| + Freed(nodes[i].own, ds) <= |Held(nodes, ds, next)|
  {
    var c := NodeBlocks(nodes, ds, nb, next, i);
    FreedExact(nodes[i].own, ds, c);
    HeldRemove(nodes, nodes - {i}, ds, next, i);
    UnnamedRemove(nodes, i);
  }

  /** dealloc_ino on an inode nobody names: it succeeds for every number in the first bitmap
      block, and the volume stays sound. */
  lemma DeallocSound(v: Volume, i: nat)
    requires Sound(v) && i in v.nodes && Unnamed(v.nodes, i)
    ensures DeallocIno(v, i).Ok? <==> i != ROOT_INO && i < BLK_SZ_BITS
    ensures DeallocIno(v, i).Ok? ==> Sound(DeallocIno(v, i).vol)
  {
    if i != ROOT_INO && i < BLK_SZ_BITS {
      DeallocParts(v.nodes, v.ds, v.nb, v.next, i);
      ClearBit(v.bitmap, v.inoFree, v.nodes.Keys, i);
    }
  }

  lemma UnnamedRemove(nodes: Nodes, i: nat)
    requires Named(nodes, nodes.Keys) && Unnamed(nodes, i)
    ensures Named(nodes - {i}, nodes.Keys - {i})
  {
    var b := nodes - {i};
    forall e, l: nat | Names(b, e, l) ensures Names(nodes, e, l) && b[e] == nodes[e] {
    }
  }
}
