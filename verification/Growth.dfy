/** Adding entries, inodes and blocks keeps the volume sound. */
module Growth {
  import opened Layout
  import opened Paths
  import opened Directory
  import opened Raw
  import opened Volumes
  import opened Invariants

  /** Holding only old or newly handed out ids raises the holdings by at most the new ones. */
  lemma HeldGrow(a: Nodes, b: Nodes, ds: nat, next: nat, next': nat)
    requires next <= next'
    requires forall x: nat, i: nat, k: nat :: Holds(b, x, i, k) && ds < x < next ==> InUse(a, x)
    ensures |Held(b, ds, next')| <= |Held(a, ds, next)| + (next' - next)
  {
    var h, r := Held(a, ds, next), Ids(next, next');
    SubsetCard(Held(b, ds, next'), h + r);
    assert |h + r| == |h| + |r| - |h * r|;
  }

  lemma InsertDir(n: Node, ds: nat, de: Dentry, m: Node)
    requires n.kind == Dir && DirOk(n, ds)
    requires Live(de) && PathName(de.name)
    requires Walkable(de.name) ==> Find(n.slots, de.name) == |n.slots|
    requires m.slots == Insert(n.slots, de) && m.links == n.links + 1
    ensures Clean(m.slots) && DotsFirst(m.slots) && DistinctNames(m.slots)
    ensures m.links == |LiveSet(m.slots)|
  {
    InsertLive(n.slots, de);
    var s, r, e := n.slots, m.slots, FirstEmpty(n.slots);
    forall i, j | 0 <= i < j < |r| && Walkable(r[i].name) ensures r[i].name != r[j].name {
      if i == e && j < |s| {
        assert !Hit(s[j], de.name);
      } else if j == e && i < |s| {
        assert !Hit(s[i], r[i].name) || r[i].name != de.name;
      }
    }
  }

  /** The bytes of a directory go on saying what its dentries are. */
  lemma EntrySpelled(n: Node, de: Dentry)
    requires Spells(n) && Storable(de)
    requires |n.slots| % NUM_DIRENTS_PER_BLOCK == 0 && |n.bytes| == |n.slots| / NUM_DIRENTS_PER_BLOCK * BLK_SZ
    ensures var m := WithEntry(n, de);
            && Spells(m)
            && |m.bytes| == |n.bytes| + if FirstEmpty(n.slots) < |n.slots| then 0 else BLK_SZ
  {
    hide SlotsIn, SlotIn, PutRecord, NewRaw, Spells;
    var e := FirstEmpty(n.slots);
    SpellsAll(n);
    SpellsAll(WithEntry(n, de));
    if e < |n.slots| {
      PutSlot(n.bytes, e, de);
    } else {
      NewSlots(de);
      SlotsJoin(n.bytes, NewRaw(de));
    }
  }

  /** Giving a directory its next block keeps its blocks a prefix and all ids apart. */
  lemma GrowDir(v: Volume, d: nat, c: nat, own: Own)
    requires 1 <= v.ds < v.next && Owned(v.nodes, v.ds, v.next)
    requires d in v.nodes && v.nodes[d].kind == Dir && DirOk(v.nodes[d], v.ds)
    requires c == |v.nodes[d].slots| / NUM_DIRENTS_PER_BLOCK < MAX_FILE_BLKS
    requires own == GrowOwn(v.nodes[d].own, c, v.next)
    ensures forall k :: 0 <= k < MAX_FILE_BLKS ==> (own[k] >= v.ds <==> k < c + 1)
    ensures own[IND] >= v.ds <==> c + 1 > NUM_DIRECT_BLOCKS
    ensures forall k :: 0 <= k < OWN_LEN ==>
                          own[k] == v.nodes[d].own[k] || v.next <= own[k] < v.next + Need(c)
    ensures forall k, l :: 0 <= k < OWN_LEN && 0 <= l < OWN_LEN && own[k] >= v.next && own[k] == own[l] ==> k == l
  {
    OldIds(v, d);
  }

  /** Exactly the first c data blocks are allocated, and the indirect block when it is needed. */
  ghost predicate Mapped(own: Own, ds: nat, c: nat) {
    && c <= MAX_FILE_BLKS
    && (forall k :: 0 <= k < MAX_FILE_BLKS ==> (own[k] >= ds <==> k < c))
    && (own[IND] >= ds <==> c > NUM_DIRECT_BLOCKS)
  }

  /** All ids were handed out, to one place each. */
  ghost predicate Apart(own: Own, ds: nat, next: nat) {
    && (forall k :: 0 <= k < OWN_LEN ==> own[k] < next)
    && (forall k, l :: 0 <= k < l < OWN_LEN && own[k] >= ds ==> own[k] != own[l])
  }

  lemma GrowShape(own: Own, ds: nat, c: nat, next: nat)
    requires 0 < ds <= next && c < MAX_FILE_BLKS && Mapped(own, ds, c) && Apart(own, ds, next)
    ensures var own' := GrowOwn(own, c, next);
            && Mapped(own', ds, c + 1) && Apart(own', ds, next + Need(c))
            && (forall k :: 0 <= k < MAX_FILE_BLKS && k != c ==> own'[k] == own[k])
            && own'[c] == next + Need(c) - 1
  {
  }

  /** Blocks added one after the other: old ids stay, new ones come from the ids handed out. */
  lemma {:induction false} GrowToShape(own: Own, ds: nat, c: nat, c': nat, next: nat)
    requires 0 < ds <= next && c <= c' <= MAX_FILE_BLKS && Mapped(own, ds, c) && Apart(own, ds, next)
    ensures var own' := GrowTo(own, c, c', next);
            && Mapped(own', ds, c') && Apart(own', ds, next + Needed(c, c'))
            && (forall k :: 0 <= k < OWN_LEN ==> own'[k] == own[k] || next <= own'[k] < next + Needed(c, c'))
            && (forall k :: 0 <= k < c ==> own'[k] == own[k])
            && (c > NUM_DIRECT_BLOCKS || c' <= NUM_DIRECT_BLOCKS ==> own'[IND] == own[IND])
    decreases c'
  {
    if c < c' {
      GrowToShape(own, ds, c, c' - 1, next);
      GrowShape(GrowTo(own, c, c' - 1, next), ds, c' - 1, next + Needed(c, c' - 1));
    }
  }

  /** The ids in closed form: data blocks in order, the indirect block just before the first one it lists. */
  lemma {:induction false} GrownIds(own: Own, c: nat, c': nat, next: nat, k: nat)
    requires c <= c' <= MAX_FILE_BLKS && k < OWN_LEN
    ensures GrowTo(own, c, c', next)[k] ==
            if c <= k < c' then next + (k - c) + (if c <= NUM_DIRECT_BLOCKS <= k then 1 else 0)
            else if k == IND && c <= NUM_DIRECT_BLOCKS < c' then next + (NUM_DIRECT_BLOCKS - c)
            else own[k]
    decreases c'
  {
    if c < c' {
      GrownIds(own, c, c' - 1, next, k);
    }
  }

  /** What create sets aside for a file is what growing it to the largest size would give it. */
  lemma PreallocGrows(own: Own, next: nat)
    ensures PreallocOwn(next) == GrowTo(own, 0, MAX_FILE_BLKS, next) && PREALLOC == Needed(0, MAX_FILE_BLKS)
  {
    hide GrowTo;
    forall k | 0 <= k < OWN_LEN ensures PreallocOwn(next)[k] == GrowTo(own, 0, MAX_FILE_BLKS, next)[k] {
      GrownIds(own, 0, MAX_FILE_BLKS, next, k);
    }
  }

  /** Ids stay apart when one inode's list is replaced by old ids of its own and new ones. */
  lemma OwnedUpdate(nodes: Nodes, ds: nat, next: nat, next': nat, d: nat, m: Node)
    requires ds < next <= next' && Owned(nodes, ds, next)
    requires forall k :: 0 <= k < OWN_LEN ==>
                           (d in nodes && m.own[k] == nodes[d].own[k]) || m.own[k] < ds || next <= m.own[k] < next'
    requires forall k, l :: 0 <= k < OWN_LEN && 0 <= l < OWN_LEN && m.own[k] >= next && m.own[k] == m.own[l] ==> k == l
    ensures Owned(nodes[d := m], ds, next')
    ensures |Held(nodes[d := m], ds, next')| <= |Held(nodes, ds, next)| + (next' - next)
  {
    var b := nodes[d := m];
    forall x: nat, i: nat, k: nat | Holds(b, x, i, k)
      ensures Holds(nodes, x, i, k) || x < ds || next <= x < next'
      ensures x >= next ==> i == d && m.own[k] == x
    {
      assert Holds(nodes, x, i, k) || i == d;
    }
    HeldGrow(nodes, b, ds, next, next');
  }

  lemma NodesOkUpdate(nodes: Nodes, ds: nat, nb: nat, i: nat, n: Node)
    requires NodesOk(nodes, ds, nb) && NodeOk(n, ds) && OnDevice(n, ds, nb)
    requires i == ROOT_INO ==> n.kind == Dir
    ensures NodesOk(nodes[i := n], ds, nb)
  {
  }

  /** A new name for an inode nobody names keeps names injective. */
  lemma NamedInsert(nodes: Nodes, keys: set<nat>, d: nat, m: Node, de: Dentry)
    requires Named(nodes, keys) && d in nodes && nodes[d].kind == Dir && m.kind == Dir
    requires m.slots == Insert(nodes[d].slots, de)
    requires de.ino in keys && de.ino >= FIRST_UNRESERVED_INO
    requires forall e, j: nat :: Names(nodes, e, j) ==> nodes[e].slots[j].ino != de.ino
    ensures Named(nodes[d := m], keys)
  {
    var b := nodes[d := m];
    var x := FirstEmpty(nodes[d].slots);
    forall e, j: nat | Names(b, e, j)
      ensures (e == d && j == x) || (Names(nodes, e, j) && b[e].slots[j] == nodes[e].slots[j])
    {
    }
  }

  /** w is v with the entry (name, ino) added to directory d, which may have grown by a block. */
  ghost predicate Entered(v: Volume, w: Volume, d: nat, name: Path, ino: nat) {
    && d in v.nodes && d in w.nodes && w.nodes == v.nodes[d := w.nodes[d]]
    && w == v.(nodes := w.nodes, next := w.next, free := w.free)
    && w.next >= v.next && w.free + (w.next - v.next) == v.free
    && v.nodes[d].kind == Dir && w.nodes[d].kind == Dir && w.nodes[d].refs == v.nodes[d].refs
    && w.nodes[d].slots == Insert(v.nodes[d].slots, Dentry(name, ino))
    && NodeOk(w.nodes[d], v.ds) && OnDevice(w.nodes[d], v.ds, v.nb)
    && (forall k :: 0 <= k < OWN_LEN ==>
                      w.nodes[d].own[k] == v.nodes[d].own[k] || v.next <= w.nodes[d].own[k] < w.next)
    && (forall k, l ::
          0 <= k < OWN_LEN && 0 <= l < OWN_LEN && w.nodes[d].own[k] >= v.next && w.nodes[d].own[k] == w.nodes[d].own[l]
          ==> k == l)
  }

  lemma OldIds(v: Volume, d: nat)
    requires Owned(v.nodes, v.ds, v.next) && d in v.nodes
    ensures forall k :: 0 <= k < OWN_LEN ==> v.nodes[d].own[k] < v.next
  {
    forall k: nat | k < OWN_LEN ensures v.nodes[d].own[k] < v.next {
      assert Holds(v.nodes, v.nodes[d].own[k], d, k);
    }
  }

  /** What a successful AddDentry does. */
  lemma AddDentryEnters(v: Volume, d: nat, name: PlainPath, ino: nat)
    requires 1 <= v.ds < v.nb && v.ds < v.next && Owned(v.nodes, v.ds, v.next)
    requires d in v.nodes && v.nodes[d].kind == Dir && DirOk(v.nodes[d], v.ds) && OnDevice(v.nodes[d], v.ds, v.nb)
    requires Absolute(name) && name != "/" && ROOT_INO <= ino < U64
    requires Walkable(name) ==> Find(v.nodes[d].slots, name) == |v.nodes[d].slots|
    requires AddDentry(v, d, name, ino).Ok?
    ensures Entered(v, AddDentry(v, d, name, ino).vol, d, name, ino)
  {
    var w := AddDentry(v, d, name, ino).vol;
    var n, m := v.nodes[d], w.nodes[d];
    OldIds(v, d);
    InsertDir(n, v.ds, Dentry(name, ino), m);
    EntrySpelled(n, Dentry(name, ino));
    if FirstEmpty(n.slots) == |n.slots| {
      var c := |n.slots| / NUM_DIRENTS_PER_BLOCK;
      GrowDir(v, d, c, m.own);
      assert |m.slots| == |n.slots| + NUM_DIRENTS_PER_BLOCK;
    }
  }

  lemma AllSet(bits: Bits, n: nat)
    requires n <= |bits| && forall i :: 0 <= i < n ==> bits[i]
    ensures |SetBits(bits, n)| == n
  {
    assert SetBits(bits, n) == Ids(0, n);
  }

  lemma FirstClear(bits: Bits, inoFree: nat, keys: set<nat>)
    requires Marked(bits, inoFree, keys) && inoFree > 0
    ensures FIRST_UNRESERVED_INO <= ClearFrom(bits, 0) < NUM_INODES
  {
    if ClearFrom(bits, 0) >= NUM_INODES {
      AllSet(bits, NUM_INODES);
      assert false;
    }
  }

  lemma MarkBit(bits: Bits, inoFree: nat, keys: set<nat>, i: nat)
    requires Marked(bits, inoFree, keys) && inoFree > 0
    requires FIRST_UNRESERVED_INO <= i < NUM_INODES && !bits[i]
    ensures Marked(bits[i := true], inoFree - 1, keys + {i})
  {
    assert SetBits(bits[i := true], NUM_INODES) == SetBits(bits, NUM_INODES) + {i};
  }

  /** A successful alloc_ino returns the smallest number not in use, never a reserved one or one
      past the table, and the counters agree again afterwards. */
  lemma AllocInoSound(v: Volume)
    requires Marked(v.bitmap, v.inoFree, v.nodes.Keys)
    ensures !AllocIno(v).Fatal?
    ensures AllocIno(v).Refused? <==> v.inoFree == 0
    ensures AllocIno(v).Ok? ==>
              var i := AllocIno(v).val;
              && FIRST_UNRESERVED_INO <= i < NUM_INODES && i !in v.nodes
              && (forall j :: FIRST_UNRESERVED_INO <= j < i ==> j in v.nodes)
              && AllocIno(v).vol == v.(bitmap := AllocIno(v).vol.bitmap, inoFree := v.inoFree - 1)
              && Marked(AllocIno(v).vol.bitmap, v.inoFree - 1, v.nodes.Keys + {i})
  {
    if v.inoFree > 0 {
      FirstClear(v.bitmap, v.inoFree, v.nodes.Keys);
      MarkBit(v.bitmap, v.inoFree, v.nodes.Keys, ClearFrom(v.bitmap, 0));
    }
  }

  lemma NewEntryFacts(v: Volume, p: Path)
    requires Sound(v) && NewEntryDir(v, p).Ok?
    ensures Absolute(p) && p != "/" && GetDe(v.nodes, p).Missing?
    ensures var d := NewEntryDir(v, p).val;
            && NewEntryDir(v, p).vol == v
            && d in v.nodes && v.nodes[d].kind == Dir
            && Resolve(v.nodes, Dirname(p)) == Some(d)
            && (Walkable(p) ==> Find(v.nodes[d].slots, p) == |v.nodes[d].slots|)
  {
    hide Sound;
    if Walkable(p) {
      var k := LastSlash(p);
      var d := NewEntryDir(v, p).val;
      assert Search(v.nodes, d, p) == Walk(v.nodes, p);
    }
  }

  /** A new inode that names nothing yet. */
  lemma NamedAddNode(nodes: Nodes, keys: set<nat>, i: nat, n: Node)
    requires Named(nodes, keys) && i !in nodes
    requires forall j :: 0 <= j < |n.slots| ==> !Absolute(n.slots[j].name)
    ensures Named(nodes[i := n], keys)
  {
    var b := nodes[i := n];
    forall e, j: nat | Names(b, e, j) ensures Names(nodes, e, j) && b[e] == nodes[e] {
    }
  }

  lemma HandlesAdd(open: map<nat, nat>, fh: nat, i: nat, j: nat)
    requires fh !in open
    ensures |HandlesOf(open[fh := i], j)| == |HandlesOf(open, j)| + if j == i then 1 else 0
    ensures |open[fh := i]| == |open| + 1
  {
    var w := open[fh := i];
    if j == i {
      assert HandlesOf(w, j) == HandlesOf(open, j) + {fh};
    } else {
      assert HandlesOf(w, j) == HandlesOf(open, j);
    }
  }

  lemma HandlesNone(open: map<nat, nat>, i: nat)
    requires forall fh :: fh in open ==> open[fh] != i
    ensures HandlesOf(open, i) == {}
  {
  }

  lemma RefsAdd(a: Nodes, b: Nodes, open: map<nat, nat>, fh: nat, i: nat, j: nat)
    requires fh !in open && j in b && b.Keys == a.Keys + {i}
    requires forall h :: h in open ==> open[h] in a
    requires j in a ==> a[j].refs == |HandlesOf(open, j)| + if j == ROOT_INO then 1 else 0
    requires j in a ==> b[j].refs == a[j].refs + if j == i then 1 else 0
    requires j !in a ==> i != ROOT_INO && b[i].refs == 1
    ensures b[j].refs == |HandlesOf(open[fh := i], j)| + if j == ROOT_INO then 1 else 0
  {
    HandlesAdd(open, fh, i, j);
    if j !in a {
      HandlesNone(open, j);
    }
  }

  /** Opening a new handle on i: the table and the reference counts keep agreeing. */
  lemma OpenHandleHandled(v: Volume, i: nat, a: Nodes, b: Nodes)
    requires Handled(a, v.open, v.nextFd) && OpenHandle(v, i).Ok?
    requires b.Keys == a.Keys + {i}
    requires forall j :: j in a ==> b[j].refs == a[j].refs + if j == i then 1 else 0
    requires i !in a ==> i != ROOT_INO && b[i].refs == 1
    ensures var w := OpenHandle(v, i).vol; Handled(b, w.open, w.nextFd)
    ensures OpenHandle(v, i).val !in v.open
  {
    hide HandlesOf;
    var w, fh := OpenHandle(v, i).vol, OpenHandle(v, i).val;
    assert fh !in v.open && |w.open| == |v.open| + 1;
    forall j | j in b
      ensures b[j].refs == |HandlesOf(w.open, j)| + if j == ROOT_INO then 1 else 0
    {
      RefsAdd(a, b, v.open, fh, i, j);
    }
    HandlesAdd(v.open, fh, i, i);
  }

  /** w is v with a new file n, inode i, entered as p in directory d, which becomes m. */
  ghost predicate Extends(v: Volume, w: Volume, d: nat, p: Path, i: nat, m: Node, n: Node) {
    && w.ds == v.ds && w.nb == v.nb
    && d in v.nodes && i !in v.nodes && FIRST_UNRESERVED_INO <= i < NUM_INODES
    && w.nodes == v.nodes[d := m][i := n]
    && v.nodes[d].kind == Dir && m.kind == Dir && m.refs == v.nodes[d].refs
    && m.slots == Insert(v.nodes[d].slots, Dentry(p, i))
    && NodeOk(m, v.ds) && OnDevice(m, v.ds, v.nb) && NodeOk(n, v.ds) && OnDevice(n, v.ds, v.nb)
    && (forall j :: 0 <= j < |n.slots| ==> !Absolute(n.slots[j].name))
    && Marked(w.bitmap, w.inoFree, v.nodes.Keys + {i})
    && v.next <= w.next && w.free + (w.next - v.next) == v.free
    && NewIds(v, w, v.nodes[d].own, m.own, n.own)
  }

  /** Ids the two inodes gained are new, and pairwise different. */
  ghost predicate NewIds(v: Volume, w: Volume, old': Own, m: Own, n: Own) {
    && (forall k :: 0 <= k < OWN_LEN ==> m[k] == old'[k] || v.next <= m[k] < w.next)
    && (forall k :: 0 <= k < OWN_LEN ==> n[k] < v.ds || v.next <= n[k] < w.next)
    && (forall k, l :: 0 <= k < OWN_LEN && 0 <= l < OWN_LEN && m[k] >= v.next && m[k] == m[l] ==> k == l)
    && (forall k, l :: 0 <= k < OWN_LEN && 0 <= l < OWN_LEN && n[k] >= v.next && n[k] == n[l] ==> k == l)
    && (forall k, l :: 0 <= k < OWN_LEN && 0 <= l < OWN_LEN && m[k] >= v.next ==> m[k] != n[l])
  }

  lemma ExtendsOwned(v: Volume, w: Volume, d: nat, i: nat, m: Node, n: Node)
    requires v.ds < v.next <= w.next && Owned(v.nodes, v.ds, v.next)
    requires d in v.nodes && i !in v.nodes && w.nodes == v.nodes[d := m][i := n]
    requires NewIds(v, w, v.nodes[d].own, m.own, n.own)
    ensures Owned(w.nodes, v.ds, w.next)
    ensures |Held(w.nodes, v.ds, w.next)| <= |Held(v.nodes, v.ds, v.next)| + (w.next - v.next)
  {
    forall x: nat, j: nat, k: nat | Holds(w.nodes, x, j, k)
      ensures Holds(v.nodes, x, j, k) || x < v.ds || v.next <= x < w.next
      ensures x >= v.next ==> (j == i && n.own[k] == x) || (j == d && m.own[k] == x)
      ensures Holds(v.nodes, x, j, k) ==> x < v.next
    {
      assert Holds(v.nodes, x, j, k) || j == i || j == d;
    }
    HeldGrow(v.nodes, w.nodes, v.ds, v.next, w.next);
  }

  lemma ExtendsNamed(v: Volume, w: Volume, d: nat, p: Path, i: nat, m: Node, n: Node)
    requires Named(v.nodes, v.nodes.Keys) && i >= FIRST_UNRESERVED_INO && i !in v.nodes
    requires d in v.nodes && w.nodes == v.nodes[d := m][i := n]
    requires v.nodes[d].kind == Dir && m.kind == Dir
    requires m.slots == Insert(v.nodes[d].slots, Dentry(p, i))
    requires forall j :: 0 <= j < |n.slots| ==> !Absolute(n.slots[j].name)
    ensures w.nodes.Keys == v.nodes.Keys + {i}
    ensures Named(w.nodes, v.nodes.Keys + {i})
  {
    var keys := v.nodes.Keys + {i};
    NamedInsert(v.nodes, keys, d, m, Dentry(p, i));
    NamedAddNode(v.nodes[d := m], keys, i, n);
  }

  lemma ExtendsSound(v: Volume, w: Volume, d: nat, p: Path, i: nat, m: Node, n: Node)
    requires Sound(v) && Extends(v, w, d, p, i, m, n)
    ensures Sound(w)
  {
    ExtendsNamed(v, w, d, p, i, m, n);
    ExtendsOwned(v, w, d, i, m, n);
    NodesOkUpdate(v.nodes, v.ds, v.nb, d, m);
    NodesOkUpdate(v.nodes[d := m], v.ds, v.nb, i, n);
  }

  /** Putting the steps together. */
  lemma Assemble(v: Volume, v0: Volume, v1: Volume, w: Volume, d: nat, p: Path, i: nat, n: Node)
    requires v.ds < v.next <= v0.next && v0.free + (v0.next - v.next) == v.free
    requires Owned(v.nodes, v.ds, v.next)
    requires v0.ds == v.ds && v0.nb == v.nb && v0.nodes == v.nodes
    requires i !in v.nodes && FIRST_UNRESERVED_INO <= i < NUM_INODES
    requires Marked(v0.bitmap, v0.inoFree, v.nodes.Keys + {i})
    requires Entered(v0, v1, d, p, i)
    requires v1.next <= w.next && w.free + (w.next - v1.next) == v1.free
    requires w.ds == v.ds && w.nb == v.nb && w.bitmap == v0.bitmap && w.inoFree == v0.inoFree
    requires w.nodes == v1.nodes[i := n]
    requires NodeOk(n, v.ds) && OnDevice(n, v.ds, v.nb)
    requires forall j :: 0 <= j < |n.slots| ==> !Absolute(n.slots[j].name)
    requires forall k :: 0 <= k < OWN_LEN ==>
                           n.own[k] < v.ds || v.next <= n.own[k] < v0.next || v1.next <= n.own[k] < w.next
    requires forall k, l :: 0 <= k < OWN_LEN && 0 <= l < OWN_LEN && n.own[k] >= v.ds && n.own[k] == n.own[l] ==> k == l
    ensures d in v1.nodes && Extends(v, w, d, p, i, v1.nodes[d], n)
  {
    OldIds(v, d);
  }

  /** Counters that follow a new, not yet opened, file. */
  lemma ExtendsHandled(v: Volume, w: Volume, d: nat, p: Path, i: nat, m: Node, n: Node)
    requires Handled(v.nodes, v.open, v.nextFd) && Extends(v, w, d, p, i, m, n)
    requires w.open == v.open && w.nextFd == v.nextFd && n.refs == 0
    ensures Handled(w.nodes, w.open, w.nextFd)
  {
    HandlesNone(v.open, i);
  }

  /** The same when the new file comes with a handle. */
  lemma ExtendsOpened(v: Volume, w: Volume, d: nat, p: Path, i: nat, m: Node, n: Node, v1: Volume)
    requires Handled(v.nodes, v.open, v.nextFd) && Extends(v, w, d, p, i, m, n)
    requires v1.open == v.open && v1.nextFd == v.nextFd && OpenHandle(v1, i).Ok?
    requires w.open == OpenHandle(v1, i).vol.open && w.nextFd == OpenHandle(v1, i).vol.nextFd && n.refs == 1
    ensures Handled(w.nodes, w.open, w.nextFd)
    ensures OpenHandle(v1, i).val !in v.open && w.open == v.open[OpenHandle(v1, i).val := i]
  {
    hide Handled, NodeOk, OnDevice, Marked, NewIds;
    OpenHandleHandled(v1, i, v.nodes, w.nodes);
  }
}
