/** Opening, closing, reading and writing. */
module HandleOps {
  import opened Layout
  import opened Paths
  import opened Directory
  import opened Volumes
  import opened Invariants
  import opened Growth
  import opened Removal
  import opened RemoveOps
  import opened RenameOps

  /** The tree of names: kinds and slots, whatever else changes. */
  ghost predicate SameTree(a: Nodes, b: Nodes) {
    a.Keys == b.Keys && forall i :: i in a ==> b[i].kind == a[i].kind && b[i].slots == a[i].slots
  }

  lemma {:induction false} WalkSame(a: Nodes, b: Nodes, q: Path)
    requires SameTree(a, b) && Absolute(q)
    ensures Walk(b, q) == Walk(a, q)
    decreases |q|
  {
    var k := LastSlash(q);
    if k > 0 {
      WalkSame(a, b, q[..k]);
    }
  }

  lemma ResolveSame(a: Nodes, b: Nodes, q: Path)
    requires SameTree(a, b)
    ensures GetDe(b, q) == GetDe(a, q) && Resolve(b, q) == Resolve(a, q)
  {
    if Absolute(q) {
      WalkSame(a, b, q);
    }
  }

  /** Changing what is not part of the tree of names, the blocks or the sizes. */
  lemma TouchSound(v: Volume, i: nat, m: Node)
    requires Sound(v) && i in v.nodes
    requires m.kind == v.nodes[i].kind && m.slots == v.nodes[i].slots && m.own == v.nodes[i].own
    requires NodeOk(m, v.ds) && OnDevice(m, v.ds, v.nb)
    ensures Sound(v.(nodes := v.nodes[i := m])) && SameTree(v.nodes, v.nodes[i := m])
  {
    hide NodeOk, OnDevice, Owned, Marked, Counted, NodesOk;
    var b := v.nodes[i := m];
    forall d, j: nat | Names(b, d, j) ensures Names(v.nodes, d, j) && b[d].slots == v.nodes[d].slots {
    }
    ReplaceSound(v, i, m);
  }

  lemma RefsOk(v: Volume, i: nat, m: Node)
    requires Sound(v) && i in v.nodes && m == v.nodes[i].(refs := m.refs)
    ensures NodeOk(m, v.ds) && OnDevice(m, v.ds, v.nb)
  {
    hide Owned, Named, Marked, Counted;
  }

  lemma AddRefsSound(v: Volume, i: nat, delta: int)
    requires Sound(v) && i in v.nodes
    ensures Sound(AddRefs(v, i, delta)) && SameTree(v.nodes, AddRefs(v, i, delta).nodes)
  {
    hide Sound, NodeOk, OnDevice;
    var m := v.nodes[i].(refs := v.nodes[i].refs + delta);
    RefsOk(v, i, m);
    TouchSound(v, i, m);
  }

  /** The handle table is no part of soundness. */
  lemma TableSound(v: Volume, open: map<nat, nat>, nextFd: nat)
    requires Sound(v)
    ensures Sound(v.(open := open, nextFd := nextFd))
  {
    hide NodesOk, Owned, Named, Marked;
  }

  /** Opening changes no name; the new handle was not in use and names the opened inode. */
  lemma OpenSound(v: Volume, p: Path, kind: Kind)
    requires Sound(v)
    ensures Open(v, p, kind).Refused? ==> Open(v, p, kind).vol == v
    ensures Open(v, p, kind).Ok? ==>
              var w, fh := Open(v, p, kind).vol, Open(v, p, kind).val;
              && Sound(w) && SameTree(v.nodes, w.nodes)
              && Resolve(v.nodes, p).Some? && w.open == v.open[fh := Resolve(v.nodes, p).value]
              && w.nodes[Resolve(v.nodes, p).value].kind == kind
  {
    hide Sound;
    if Open(v, p, kind).Ok? {
      var i := GetDe(v.nodes, p).ino;
      var u := OpenHandle(v, i).vol;
      TableSound(v, u.open, u.nextFd);
      AddRefsSound(u, i, 1);
    }
  }

  lemma OpenHandled(v: Volume, p: Path, kind: Kind)
    requires Inv(v) && Open(v, p, kind).Ok?
    ensures var w := Open(v, p, kind).vol; Handled(w.nodes, w.open, w.nextFd)
    ensures Open(v, p, kind).val !in v.open
  {
    hide Sound, Handled, GetDe;
    var i := GetDe(v.nodes, p).ino;
    OpenHandleHandled(v, i, v.nodes, Open(v, p, kind).vol.nodes);
  }

  lemma ReleaseSound(v: Volume, fh: nat)
    requires Sound(v) && Release(v, fh).Ok?
    ensures var w := Release(v, fh).vol;
            Sound(w) && SameTree(v.nodes, w.nodes) && w.open == v.open - {fh}
  {
    hide Sound;
    AddRefsSound(v, v.open[fh], -1);
    TableSound(AddRefs(v, v.open[fh], -1), v.open - {fh}, v.nextFd);
  }

  lemma ReleaseHandled(v: Volume, fh: nat)
    requires Inv(v)
    ensures Release(v, fh).Ok? <==> fh in v.open
    ensures Release(v, fh).Ok? ==>
              var w := Release(v, fh).vol; Handled(w.nodes, w.open, w.nextFd)
  {
    hide Sound, HandlesOf;
    if fh in v.open {
      var w, i := Release(v, fh).vol, v.open[fh];
      forall j | j in w.nodes
        ensures w.nodes[j].refs == |HandlesOf(w.open, j)| + if j == ROOT_INO then 1 else 0
      {
        HandlesDrop(v.open, fh, j);
      }
      HandlesDrop(v.open, fh, i);
    }
  }

  lemma HandlesDrop(open: map<nat, nat>, fh: nat, j: nat)
    requires fh in open
    ensures |HandlesOf(open - {fh}, j)| == |HandlesOf(open, j)| - if j == open[fh] then 1 else 0
    ensures |open - {fh}| <= |open|
  {
    var w := open - {fh};
    if j == open[fh] {
      assert HandlesOf(open, j) == HandlesOf(w, j) + {fh};
    } else {
      assert HandlesOf(w, j) == HandlesOf(open, j);
    }
    assert w.Keys <= open.Keys;
    SubsetCard(w.Keys, open.Keys);
    assert |w| == |w.Keys| && |open| == |open.Keys|;
  }

  /** Renaming onto an existing target frees its inode whatever handles name it, so the handle
      table stays exact if and only if the target is not open. */
  lemma RenameHandledIff(v: Volume, fr: Path, to: PlainPath)
    requires Inv(v) && Rename(v, fr, to).Ok?
    ensures to != fr && Resolve(v.nodes, to).Some? ==> Resolve(v.nodes, to).value in v.nodes
    ensures var w := Rename(v, fr, to).vol;
            && w.open == v.open && w.nextFd == v.nextFd
            && (Handled(w.nodes, w.open, w.nextFd) <==>
                (to != fr && Resolve(v.nodes, to).Some? ==> v.nodes[Resolve(v.nodes, to).value].refs == 0))
  {
    hide Sound, Handled, Detach, Attach, Unnamed;
    DetachSound(v, fr);
    DetachResolves(v, fr, to);
    var u, f := Detach(v, fr).vol, Detach(v, fr).val;
    SameRefsHandled(v.nodes, u.nodes, v.open, v.nextFd);
    AttachHandled(u, to, f);
  }

  lemma SameRefsHandled(a: Nodes, b: Nodes, open: map<nat, nat>, nextFd: nat)
    requires a.Keys == b.Keys && forall i :: i in a ==> b[i].refs == a[i].refs
    ensures Handled(a, open, nextFd) <==> Handled(b, open, nextFd)
  {
  }

  lemma AttachHandled(u: Volume, to: PlainPath, f: nat)
    requires Sound(u) && Loose(u, f) && Handled(u.nodes, u.open, u.nextFd) && Attach(u, to, f).Ok?
    ensures Resolve(u.nodes, to).Some? ==> Resolve(u.nodes, to).value in u.nodes
    ensures var w := Attach(u, to, f).vol;
            && w.open == u.open && w.nextFd == u.nextFd
            && (Handled(w.nodes, w.open, w.nextFd) <==>
                (Resolve(u.nodes, to).Some? ==> u.nodes[Resolve(u.nodes, to).value].refs == 0))
  {
    hide Sound, Handled, Unnamed, Loose, Fits, DirOk, ParentDir;
    var t := GetDe(u.nodes, to);
    if t.Found? {
      ReplaceIs(u, to, f);
      var x := Rewrite(u, t.dir, t.slot, Dentry(to, f), 0);
      RewriteHandled(u, t.dir, t.slot, Dentry(to, f), 0);
      DeallocHandled(x, t.ino);
      DeallocKeepsTable(x, t.ino);
    } else {
      AttachNewIs(u, to, f);
      SameRefsHandled(u.nodes, Attach(u, to, f).vol.nodes, u.open, u.nextFd);
    }
  }

  // ---- contents ---------------------------------------------------------------------

  lemma WrittenOk(n: Node, ds: nat, nb: nat, off: nat, end: nat, bytes: seq<Byte>)
    requires n.kind == Reg && RegOk(n, ds) && OnDevice(n, ds, nb)
    requires Reaches(n.own, nb, Min(off, |n.bytes|), end)
    requires |bytes| == |n.bytes| || (|bytes| == end && |n.bytes| < end <= MAX_FILE_BYTES)
    ensures RegOk(n.(bytes := bytes), ds) && OnDevice(n.(bytes := bytes), ds, nb)
  {
  }

  /** Write changes the contents of one file and nothing else of any file. */
  lemma WriteSound(v: Volume, fh: nat, data: seq<Byte>, off: nat)
    requires Sound(v) && Write(v, fh, data, off).Ok? && v.nodes[v.open[fh]].kind == Reg
    ensures var w, i := Write(v, fh, data, off).vol, v.open[fh];
            && Sound(w) && SameTree(v.nodes, w.nodes) && w == v.(nodes := w.nodes)
            && forall j :: j in v.nodes ==>
                             w.nodes[j] == if j == i then v.nodes[i].(bytes := w.nodes[i].bytes) else v.nodes[j]
  {
    hide Owned, Named, Marked, Counted, OnDevice, Reaches;
    var w, i := Write(v, fh, data, off).vol, v.open[fh];
    WrittenOk(v.nodes[i], v.ds, v.nb, off, off + |data|, w.nodes[i].bytes);
    TouchSound(v, i, w.nodes[i]);
  }

  /** The size never shrinks. The file becomes the spliced sequence, and all of the data counts as
      written, if and only if the write ends within the largest file. */
  lemma WriteSplicesIff(v: Volume, fh: nat, data: seq<Byte>, off: nat)
    requires Sound(v) && Write(v, fh, data, off).Ok? && v.nodes[v.open[fh]].kind == Reg
    requires off + |data| < U64
    ensures var w, i := Write(v, fh, data, off).vol, v.open[fh];
            && |w.nodes[i].bytes| >= |v.nodes[i].bytes|
            && (w.nodes[i].bytes == Splice(v.nodes[i].bytes, off, data) <==> off + |data| <= MAX_FILE_BYTES)
            && (Write(v, fh, data, off).val == |data| <==> off + |data| <= MAX_FILE_BYTES)
  {
    hide Owned, Named, Marked, Counted, OnDevice, Reaches;
  }

  /** Past the largest file a write puts down what falls within the old size and leaves the size alone. */
  lemma WritePast(v: Volume, fh: nat, data: seq<Byte>, off: nat)
    requires Sound(v) && Write(v, fh, data, off).Ok? && v.nodes[v.open[fh]].kind == Reg
    requires off + |data| > MAX_FILE_BYTES
    ensures var was, now := v.nodes[v.open[fh]].bytes, Write(v, fh, data, off).vol.nodes[v.open[fh]].bytes;
            && |now| == |was| && forall j :: 0 <= j < |was| ==> now[j] == if j < off then was[j] else data[j - off]
  {
    hide Owned, Named, Marked, Counted, OnDevice, Reaches;
  }

  /** A write to a regular file goes through exactly when every byte it puts down, zeros before off included,
      has its block on a device; it is never refused. */
  lemma WriteIff(v: Volume, fh: nat, data: seq<Byte>, off: nat)
    requires Sound(v) && fh in v.open && v.open[fh] in v.nodes && v.nodes[v.open[fh]].kind == Reg
    ensures !Write(v, fh, data, off).Refused?
    ensures var n := v.nodes[v.open[fh]];
            Write(v, fh, data, off).Ok? <==>
            forall b :: Min(off, |n.bytes|) <= b < off + |data| && b < MAX_FILE_BYTES ==> n.own[b / BLK_SZ] < v.nb
  {
    hide Owned, Named, Marked, Counted, Reaches, Splice;
    var n := v.nodes[v.open[fh]];
    ReachesIff(n, v.ds, v.nb, off, off + |data|);
  }

  lemma ReachesIff(n: Node, ds: nat, nb: nat, off: nat, end: nat)
    requires n.kind == Reg && RegOk(n, ds) && OnDevice(n, ds, nb) && off <= end
    ensures var start := Min(off, |n.bytes|);
            Reaches(n.own, nb, start, end) <==>
            forall b :: start <= b < end && b < MAX_FILE_BYTES ==> n.own[b / BLK_SZ] < nb
  {
    var start := Min(off, |n.bytes|);
    if forall b :: start <= b < end && b < MAX_FILE_BYTES ==> n.own[b / BLK_SZ] < nb {
      forall k | start / BLK_SZ <= k < MAX_FILE_BLKS && k * BLK_SZ < end ensures n.own[k] < nb {
        var b := if start < k * BLK_SZ then k * BLK_SZ else start;
        assert b < end ==> n.own[b / BLK_SZ] < nb;
      }
    }
  }

  /** A read returns what is left of the file from off on, at most size bytes of it, byte for byte. */
  lemma ReadExact(v: Volume, fh: nat, size: nat, off: nat)
    ensures Read(v, fh, size, off).Ok? <==> fh in v.open && v.open[fh] in v.nodes
    ensures Read(v, fh, size, off).Ok? ==>
              var n, r := v.nodes[v.open[fh]], Read(v, fh, size, off).val;
              var end := if n.kind == Reg then |n.bytes| else Min(n.dirSize, |n.bytes|);
              && Read(v, fh, size, off).vol == v
              && |r| == (if off < end then Min(size, end - off) else 0)
              && forall j :: 0 <= j < |r| ==> r[j] == n.bytes[off + j]
  {
  }

  /** Reading back what was written, through any handle of the same file. */
  lemma ReadBack(v: Volume, fh: nat, data: seq<Byte>, off: nat, fh': nat)
    requires Write(v, fh, data, off).Ok? && off + |data| <= MAX_FILE_BYTES
    requires fh' in v.open && v.open[fh'] == v.open[fh] && v.nodes[v.open[fh]].kind == Reg
    ensures Read(Write(v, fh, data, off).vol, fh', |data|, off).Ok?
    ensures Read(Write(v, fh, data, off).vol, fh', |data|, off).val == data
  {
    var b := Splice(v.nodes[v.open[fh]].bytes, off, data);
    if data != [] {
      assert b[off..off + |data|] == data;
    }
  }
}
