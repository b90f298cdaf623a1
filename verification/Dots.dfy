/** "." and "..": every directory names itself and the directory that holds its own entry. */
module Dots {
  import opened Layout
  import opened Paths
  import opened Directory
  import opened Volumes
  import opened Invariants
  import opened Growth
  import opened CreateOps
  import opened Removal
  import opened RemoveOps
  import opened RenameOps
  import opened HandleOps
  import opened NewVolumes
  import opened DirWrites
  import opened Runs

  predicate SelfDot(nodes: Nodes, i: nat) {
    i in nodes && nodes[i].kind == Dir ==> |nodes[i].slots| >= 2 && nodes[i].slots[0].ino == i
  }

  /** If slot j of d names a directory, that directory's ".." is d. */
  predicate ParentDot(nodes: Nodes, d: nat, j: nat) {
    Names(nodes, d, j) ==>
      var i := nodes[d].slots[j].ino;
      i in nodes && nodes[i].kind == Dir ==> |nodes[i].slots| >= 2 && nodes[i].slots[1].ino == d
  }

  ghost predicate Dotted(nodes: Nodes) {
    && (forall i :: SelfDot(nodes, i))
    && (forall d, j: nat :: ParentDot(nodes, d, j))
  }

  /** The first two slots of a directory are its dots, whatever is inserted. */
  lemma InsertKeepsDots(s: seq<Dentry>, de: Dentry)
    requires DotsFirst(s)
    ensures var r := Insert(s, de); |r| >= 2 && r[0] == s[0] && r[1] == s[1]
    ensures forall j :: 0 <= j < |Insert(s, de)| ==>
                          Insert(s, de)[j] == de || Insert(s, de)[j] == EMPTY || (j < |s| && Insert(s, de)[j] == s[j])
  {
    assert s[0].name == "." && s[1].name == "..";
  }

  /** A new entry for i in directory d, whose own ".." is d if it is a directory. */
  lemma DottedInsert(a: Nodes, b: Nodes, d: nat, i: nat, p: Path)
    requires Dotted(a) && d in a && d in b && d != i
    requires a[d].kind == Dir && b[d].kind == Dir && DotsFirst(a[d].slots)
    requires b[d].slots == Insert(a[d].slots, Dentry(p, i))
    requires forall k :: k in b && k != d && k != i ==> k in a && b[k].kind == a[k].kind && b[k].slots == a[k].slots
    requires i in b && b[i].kind == Dir ==> b[i].slots == DotSlots(i, d)
    requires forall e, j: nat :: Names(a, e, j) ==> a[e].slots[j].ino != i
    ensures Dotted(b)
  {
    InsertKeepsDots(a[d].slots, Dentry(p, i));
    forall k ensures SelfDot(b, k) {
      assert SelfDot(a, k);
    }
    forall e, j: nat ensures ParentDot(b, e, j) {
      if Names(b, e, j) && e != i {
        var x := b[e].slots[j];
        if e != d || x != Dentry(p, i) {
          assert Names(a, e, j) && a[e].slots[j] == x;
          assert ParentDot(a, e, j);
        }
      }
    }
  }

  /** Overwriting an entry with a blank or with a regular file. */
  lemma DottedWrite(a: Nodes, b: Nodes, d: nat, j: nat, de: Dentry)
    requires Dotted(a) && Names(a, d, j) && DotsFirst(a[d].slots)
    requires d in b && b == a[d := b[d]] && b[d].kind == Dir && b[d].slots == a[d].slots[j := de]
    requires de == EMPTY || (de.ino in a && a[de.ino].kind == Reg)
    ensures Dotted(b)
  {
    assert j >= 2;
    forall k ensures SelfDot(b, k) {
      assert SelfDot(a, k);
    }
    forall e, l: nat ensures ParentDot(b, e, l) {
      assert ParentDot(a, e, l);
    }
  }

  lemma DottedRewrite(v: Volume, d: nat, j: nat, de: Dentry, delta: int)
    requires Sound(v) && Dotted(v.nodes) && Names(v.nodes, d, j)
    requires de == EMPTY || (de.ino in v.nodes && v.nodes[de.ino].kind == Reg)
    ensures Dotted(Rewrite(v, d, j, de, delta).nodes)
  {
    hide Sound, Dotted, DotsFirst;
    DirDots(v, d);
    DottedWrite(v.nodes, Rewrite(v, d, j, de, delta).nodes, d, j, de);
  }

  lemma DottedRemove(nodes: Nodes, i: nat)
    requires Dotted(nodes)
    ensures Dotted(nodes - {i})
  {
    var b := nodes - {i};
    forall k ensures SelfDot(b, k) {
      assert SelfDot(nodes, k);
    }
    forall e, l: nat ensures ParentDot(b, e, l) {
      assert ParentDot(nodes, e, l);
    }
  }

  lemma DottedSame(a: Nodes, b: Nodes)
    requires Dotted(a) && SameTree(a, b)
    ensures Dotted(b)
  {
    forall k ensures SelfDot(b, k) {
      assert SelfDot(a, k);
    }
    forall e, l: nat ensures ParentDot(b, e, l) {
      assert ParentDot(a, e, l);
    }
  }

  lemma DirDots(v: Volume, d: nat)
    requires Sound(v) && d in v.nodes && v.nodes[d].kind == Dir
    ensures DotsFirst(v.nodes[d].slots)
  {
    assert NodeOk(v.nodes[d], v.ds);
  }

  lemma FreshUnnamed(v: Volume, i: nat)
    requires Sound(v) && i !in v.nodes
    ensures forall e, j: nat :: Names(v.nodes, e, j) ==> v.nodes[e].slots[j].ino != i
  {
  }

  lemma CreateDotted(v: Volume, p: PlainPath)
    requires Sound(v) && Dotted(v.nodes) && Create(v, p).Ok?
    ensures Dotted(Create(v, p).vol.nodes)
  {
    hide Sound, Dotted, Create, Resolve, AllocIno, DotsFirst;
    var w := Create(v, p).vol;
    var d, i, v1, m, n := CreateExtends(v, p);
    DirDots(v, d);
    FreshUnnamed(v, i);
    DottedInsert(v.nodes, w.nodes, d, i, p);
  }

  lemma MkdirDotted(v: Volume, p: PlainPath)
    requires Sound(v) && Dotted(v.nodes) && Mkdir(v, p).Ok?
    ensures Dotted(Mkdir(v, p).vol.nodes)
  {
    hide Sound, Dotted, Mkdir, Resolve, AllocIno, DotsFirst, DotSlots;
    var w := Mkdir(v, p).vol;
    var d, i, m, n := MkdirExtends(v, p);
    DirDots(v, d);
    FreshUnnamed(v, i);
    DottedInsert(v.nodes, w.nodes, d, i, p);
  }

  lemma RemoveDotted(v: Volume, p: Path, l: Look)
    requires Sound(v) && Dotted(v.nodes) && p != "/" && l == GetDe(v.nodes, p) && l.Found? && l.ino in v.nodes
    requires RemoveEntry(v, p, l).Ok?
    ensures Dotted(RemoveEntry(v, p, l).vol.nodes)
  {
    hide Sound, Dotted, GetDe, RemoveEntry;
    RemoveEntryIs(v, p, l);
    DottedRewrite(v, l.dir, l.slot, EMPTY, -1);
    DottedRemove(Rewrite(v, l.dir, l.slot, EMPTY, -1).nodes, l.ino);
  }

  lemma UnlinkDotted(v: Volume, p: Path)
    requires Sound(v) && Dotted(v.nodes) && Unlink(v, p).Ok?
    ensures Dotted(Unlink(v, p).vol.nodes)
  {
    hide Sound, Dotted, RemoveEntry;
    RootStays(v);
    RemoveDotted(v, p, GetDe(v.nodes, p));
  }

  lemma RmdirDotted(v: Volume, p: Path)
    requires Sound(v) && Dotted(v.nodes) && Rmdir(v, p).Ok?
    ensures Dotted(Rmdir(v, p).vol.nodes)
  {
    hide Sound, Dotted, RemoveEntry, GetDe;
    RmdirSound(v, p);
    RemoveDotted(v, p, GetDe(v.nodes, p));
  }

  lemma AttachDotted(u: Volume, to: PlainPath, f: nat)
    requires Sound(u) && Dotted(u.nodes) && Loose(u, f) && Attach(u, to, f).Ok?
    ensures Dotted(Attach(u, to, f).vol.nodes)
  {
    hide Sound, Dotted, ParentDir, DotsFirst, Fits, AddDentry;
    AttachSound(u, to, f);
    FoundLive(u, to);
    var t := GetDe(u.nodes, to);
    if t.Found? {
      ReplaceIs(u, to, f);
      DottedRewrite(u, t.dir, t.slot, Dentry(to, f), 0);
      DottedRemove(Rewrite(u, t.dir, t.slot, Dentry(to, f), 0).nodes, t.ino);
    } else {
      AttachNewIs(u, to, f);
      EnteredDotted(u, Attach(u, to, f).vol, ParentDir(u, to).val, to, f);
    }
  }

  lemma EnteredDotted(u: Volume, w: Volume, d: nat, to: Path, f: nat)
    requires Sound(u) && Dotted(u.nodes) && Loose(u, f) && Entered(u, w, d, to, f)
    ensures Dotted(w.nodes)
  {
    hide Sound, Dotted, DotsFirst;
    DirDots(u, d);
    DottedInsert(u.nodes, w.nodes, d, f, to);
  }

  lemma RenameDotted(v: Volume, fr: Path, to: PlainPath)
    requires Sound(v) && Dotted(v.nodes) && !Rename(v, fr, to).Fatal?
    ensures Dotted(Rename(v, fr, to).vol.nodes)
  {
    hide Sound, Dotted, Detach, Attach, Unnamed;
    DetachIs(v, fr);
    if Detach(v, fr).Ok? {
      var l := GetDe(v.nodes, fr);
      DottedRewrite(v, l.dir, l.slot, EMPTY, -1);
      DetachSound(v, fr);
      var u, f := Detach(v, fr).vol, Detach(v, fr).val;
      AttachSound(u, to, f);
      if Attach(u, to, f).Ok? {
        AttachDotted(u, to, f);
      }
    }
  }

  /** The dentries a write leaves in a directory keep every dot in place. */
  ghost predicate DotsSpelled(v: Volume, op: Op) {
    op.WriteOp? && op.fh in v.open && v.open[op.fh] in v.nodes && v.nodes[v.open[op.fh]].kind == Dir ==>
      var i := v.open[op.fh];
      Dotted(v.nodes[i := v.nodes[i].(slots := SlotsLeft(v.nodes[i], op.data, op.off))])
  }

  lemma ApplyDottedIff(v: Volume, op: Op)
    requires Sound(v) && Dotted(v.nodes) && Tame(v, op) && Apply(v, op).Some?
    ensures Dotted(Apply(v, op).value.nodes) <==> DotsSpelled(v, op)
  {
    hide Sound, Dotted, Create, Mkdir, Unlink, Rmdir, Rename, Open, Release, Write, Tame, SlotsLeft;
    match op
    case CreateOp(p) => CreateSound(v, p); if Create(v, p).Ok? { CreateDotted(v, p); }
    case MkdirOp(p) => MkdirSound(v, p); if Mkdir(v, p).Ok? { MkdirDotted(v, p); }
    case UnlinkOp(p) => UnlinkSound(v, p); if Unlink(v, p).Ok? { UnlinkDotted(v, p); }
    case RmdirOp(p) => RmdirSound(v, p); if Rmdir(v, p).Ok? { RmdirDotted(v, p); }
    case RenameOp(fr, to) => RenameDotted(v, fr, to);
    case OpenOp(p, kind) =>
      OpenSound(v, p, kind);
      if Open(v, p, kind).Ok? { DottedSame(v.nodes, Open(v, p, kind).vol.nodes); }
    case ReleaseOp(fh) => ReleaseIs(v, fh); ReleaseSound(v, fh); DottedSame(v.nodes, Release(v, fh).vol.nodes);
    case ReadOp(fh, size, off) =>
    case WriteOp(fh, data, off) => WriteIs(v, fh, data, off); WriteDottedIff(v, fh, data, off);
  }

  lemma WriteDottedIff(v: Volume, fh: nat, data: seq<Byte>, off: nat)
    requires Sound(v) && Dotted(v.nodes) && Tame(v, WriteOp(fh, data, off)) && Write(v, fh, data, off).Ok?
    ensures Dotted(Write(v, fh, data, off).vol.nodes) <==> DotsSpelled(v, WriteOp(fh, data, off))
  {
    hide Sound, Dotted, Fitting, SlotsLeft, RawLeft, Affordable, GrowTo, WriteReg;
    var i, w := v.open[fh], Write(v, fh, data, off).vol;
    if v.nodes[i].kind == Reg {
      WriteSound(v, fh, data, off);
      DottedSame(v.nodes, w.nodes);
    } else {
      var x := v.nodes[i := v.nodes[i].(slots := SlotsLeft(v.nodes[i], data, off))];
      DirShape(v, i);
      if Min(off, v.nodes[i].dirSize) == off + |data| {
        SameBytes(v, i, data, off);
      }
      if Dotted(x) { DottedSame(x, w.nodes); }
      if Dotted(w.nodes) { DottedSame(w.nodes, x); }
    }
  }

  /** The volume is sound and its dots are in place in every state of the run. */
  ghost predicate DottedThroughout(v: Volume, ops: seq<Op>)
    decreases |ops|
  {
    && Sound(v) && Dotted(v.nodes)
    && (ops != [] && Apply(v, ops[0]).Some? ==> DottedThroughout(Apply(v, ops[0]).value, ops[1..]))
  }

  ghost predicate DotsSpelledRun(v: Volume, ops: seq<Op>)
    decreases |ops|
  {
    ops != [] && Apply(v, ops[0]).Some? ==>
      DotsSpelled(v, ops[0]) && DotsSpelledRun(Apply(v, ops[0]).value, ops[1..])
  }

  /** In every state of a run each directory's "." is itself and the ".." of every directory that has
      an entry is the directory holding that entry, if and only if every write is tame and leaves the dots. */
  lemma {:induction false} RunDottedIff(v: Volume, ops: seq<Op>)
    requires Sound(v) && Dotted(v.nodes)
    ensures DottedThroughout(v, ops) <==> TameRun(v, ops) && DotsSpelledRun(v, ops)
    decreases |ops|
  {
    hide Sound, Dotted, Apply, Tame, DotsSpelled;
    if ops != [] && Apply(v, ops[0]).Some? {
      var w := Apply(v, ops[0]).value;
      ApplySoundIff(v, ops[0]);
      if Tame(v, ops[0]) {
        ApplyDottedIff(v, ops[0]);
      }
      if Sound(w) && Dotted(w.nodes) {
        RunDottedIff(w, ops[1..]);
      } else {
        assert !DottedThroughout(w, ops[1..]);
      }
    }
  }

  /** Every run of a formatted volume starts that way. */
  lemma FormattedDotted(ds: nat, nb: nat, ops: seq<Op>)
    requires 1 <= ds < nb
    ensures var v := NewVolume(ds, nb); DottedThroughout(v, ops) <==> TameRun(v, ops) && DotsSpelledRun(v, ops)
  {
    hide Sound, Handled, DottedThroughout, TameRun, DotsSpelledRun;
    var v := NewVolume(ds, nb);
    var nodes := v.nodes;
    forall d, j: nat ensures ParentDot(nodes, d, j) {
      assert d == ROOT_INO && j < NUM_DIRENTS_PER_BLOCK ==> !Absolute(nodes[d].slots[j].name);
    }
    NewInv(ds, nb);
    RunDottedIff(v, ops);
  }
}
