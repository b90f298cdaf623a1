/** Block accounting over whole runs, file handles over whole runs, and create undone by unlink. */
module Accounting {
  import opened Layout
  import opened Paths
  import opened Directory
  import opened Volumes
  import opened Invariants
  import opened CreateOps
  import opened Removal
  import opened RemoveOps
  import opened HandleOps
  import opened Raw
  import opened NewVolumes
  import opened Runs
  import Format

  /** Blocks given back by a request: those of the inode that is in v and no longer in w. */
  ghost function FreedFrom(v: Volume, w: Volume): nat {
    var gone := v.nodes.Keys - w.nodes.Keys;
    if gone == {} then 0 else var i :| i in gone; Freed(v.nodes[i].own, v.ds)
  }

  lemma FreedNone(v: Volume, w: Volume)
    requires v.nodes.Keys <= w.nodes.Keys
    ensures FreedFrom(v, w) == 0
  {
    assert v.nodes.Keys - w.nodes.Keys == {};
  }

  lemma FreedOne(v: Volume, w: Volume, i: nat)
    requires i in v.nodes && w.nodes.Keys == v.nodes.Keys - {i}
    ensures FreedFrom(v, w) == Freed(v.nodes[i].own, v.ds)
  {
    assert v.nodes.Keys - w.nodes.Keys == {i};
  }

  /** The free count falls by the ids handed out and rises by the blocks given back. */
  ghost predicate Balanced(v: Volume, w: Volume, freed: nat) {
    v.next <= w.next && w.free + (w.next - v.next) == v.free + freed && w.ds == v.ds && w.nb == v.nb
  }

  lemma CreateCounts(v: Volume, p: PlainPath)
    requires !Create(v, p).Fatal?
    ensures var w := Create(v, p).vol; Balanced(v, w, 0) && v.nodes.Keys <= w.nodes.Keys
  {
    hide GetDe, Insert, PutRecord, NewRaw;
  }

  lemma MkdirCounts(v: Volume, p: PlainPath)
    requires !Mkdir(v, p).Fatal?
    ensures var w := Mkdir(v, p).vol; Balanced(v, w, 0) && v.nodes.Keys <= w.nodes.Keys
  {
    hide GetDe, Insert, PutRecord, NewRaw, DotRaw;
  }

  /** Removing an entry gives its inode's blocks back, also when the parent then turns out not to be
      a directory. */
  lemma RemoveCounts(v: Volume, p: Path, l: Look)
    requires l.Found? && l.ino in v.nodes && !RemoveEntry(v, p, l).Fatal?
    ensures var w := RemoveEntry(v, p, l).vol;
            && Balanced(v, w, Freed(v.nodes[l.ino].own, v.ds)) && w.nodes.Keys == v.nodes.Keys - {l.ino}
            && w.next == v.next && w.inoFree == v.inoFree + 1 && w.open == v.open
  {
    hide GetDe, Freed, PutRecord;
  }

  lemma UnlinkCounts(v: Volume, p: Path)
    requires !Unlink(v, p).Fatal?
    ensures Balanced(v, Unlink(v, p).vol, FreedFrom(v, Unlink(v, p).vol))
    ensures Unlink(v, p).Ok? ==>
              && var w, l := Unlink(v, p).vol, GetDe(v.nodes, p);
              && l.Found? && l.ino in v.nodes && FreedFrom(v, w) == Freed(v.nodes[l.ino].own, v.ds)
              && w.next == v.next && w.inoFree == v.inoFree + 1 && w.open == v.open
  {
    hide RemoveEntry, GetDe, Freed;
    var l, w := GetDe(v.nodes, p), Unlink(v, p).vol;
    if w == v {
      FreedNone(v, w);
    }
    if l.Found? && l.ino in v.nodes && Unlink(v, p) == RemoveEntry(v, p, l) {
      RemoveCounts(v, p, l);
      FreedOne(v, w, l.ino);
    }
  }

  lemma RmdirCounts(v: Volume, p: Path)
    requires !Rmdir(v, p).Fatal?
    ensures Balanced(v, Rmdir(v, p).vol, FreedFrom(v, Rmdir(v, p).vol))
  {
    hide RemoveEntry, GetDe, Freed;
    var l, w := GetDe(v.nodes, p), Rmdir(v, p).vol;
    if w == v {
      FreedNone(v, w);
    }
    if l.Found? && l.ino in v.nodes && Rmdir(v, p) == RemoveEntry(v, p, l) {
      RemoveCounts(v, p, l);
      FreedOne(v, w, l.ino);
    }
  }

  /** Every inode is still there and holds the blocks it held. */
  ghost predicate SameOwners(v: Volume, w: Volume) {
    w.nodes.Keys == v.nodes.Keys && forall i :: i in v.nodes ==> w.nodes[i].own == v.nodes[i].own
  }

  lemma DetachCounts(v: Volume, fr: Path)
    requires !Detach(v, fr).Fatal?
    ensures var u := Detach(v, fr).vol; Balanced(v, u, 0) && SameOwners(v, u)
  {
    hide GetDe, PutRecord;
  }

  lemma AttachCounts(v: Volume, to: PlainPath, f: nat)
    requires !Attach(v, to, f).Fatal?
    ensures Balanced(v, Attach(v, to, f).vol, FreedFrom(v, Attach(v, to, f).vol))
  {
    hide GetDe, Freed, Insert, PutRecord, NewRaw;
    var t, w := GetDe(v.nodes, to), Attach(v, to, f).vol;
    if t.Found? && t.ino in v.nodes {
      FreedOne(v, w, t.ino);
    } else {
      FreedNone(v, w);
    }
  }

  lemma SameFreed(v: Volume, u: Volume, w: Volume)
    requires SameOwners(v, u) && u.ds == v.ds
    requires u.nodes.Keys <= w.nodes.Keys || exists i :: i in u.nodes && w.nodes.Keys == u.nodes.Keys - {i}
    ensures FreedFrom(v, w) == FreedFrom(u, w)
  {
    hide Freed;
    if i :| i in u.nodes && w.nodes.Keys == u.nodes.Keys - {i} {
      FreedOne(v, w, i);
      FreedOne(u, w, i);
    } else {
      FreedNone(v, w);
      FreedNone(u, w);
    }
  }

  lemma AttachKeys(v: Volume, to: PlainPath, f: nat)
    requires !Attach(v, to, f).Fatal?
    ensures var w := Attach(v, to, f).vol;
            v.nodes.Keys <= w.nodes.Keys || exists i :: i in v.nodes && w.nodes.Keys == v.nodes.Keys - {i}
  {
    hide GetDe, Freed, Insert, PutRecord, NewRaw;
    var t, w := GetDe(v.nodes, to), Attach(v, to, f).vol;
    if t.Found? && t.ino in v.nodes {
      assert w.nodes.Keys == v.nodes.Keys - {t.ino};
    }
  }

  lemma RenameCounts(v: Volume, fr: Path, to: PlainPath)
    requires !Rename(v, fr, to).Fatal?
    ensures Balanced(v, Rename(v, fr, to).vol, FreedFrom(v, Rename(v, fr, to).vol))
  {
    hide Detach, Attach, FreedFrom;
    DetachCounts(v, fr);
    var u := Detach(v, fr).vol;
    if Detach(v, fr).Ok? {
      AttachCounts(u, to, Detach(v, fr).val);
      AttachKeys(u, to, Detach(v, fr).val);
      SameFreed(v, u, Rename(v, fr, to).vol);
    } else {
      FreedNone(v, u);
    }
  }

  lemma ApplyCounts(v: Volume, op: Op)
    requires Apply(v, op).Some?
    ensures var w := Apply(v, op).value; Balanced(v, w, FreedFrom(v, w))
  {
    hide Create, Mkdir, Unlink, Rmdir, Rename, FreedFrom;
    var w := Apply(v, op).value;
    match op
    case CreateOp(p) => CreateCounts(v, p); FreedNone(v, w);
    case MkdirOp(p) => MkdirCounts(v, p); FreedNone(v, w);
    case UnlinkOp(p) => UnlinkCounts(v, p);
    case RmdirOp(p) => RmdirCounts(v, p);
    case RenameOp(fr, to) => RenameCounts(v, fr, to);
    case OpenOp(p, kind) => OtherCounts(v, op); FreedNone(v, w);
    case ReleaseOp(fh) => OtherCounts(v, op); FreedNone(v, w);
    case ReadOp(fh, size, off) => OtherCounts(v, op); FreedNone(v, w);
    case WriteOp(fh, data, off) => WriteCounts(v, fh, data, off); FreedNone(v, w);
  }

  lemma OtherCounts(v: Volume, op: Op)
    requires op.OpenOp? || op.ReleaseOp? || op.ReadOp?
    requires Apply(v, op).Some?
    ensures Balanced(v, Apply(v, op).value, 0) && v.nodes.Keys <= Apply(v, op).value.nodes.Keys
  {
    hide GetDe;
  }

  /** A write to a directory may hand out blocks, and counts them whether or not they are lost. */
  lemma WriteCounts(v: Volume, fh: nat, data: seq<Byte>, off: nat)
    requires !Write(v, fh, data, off).Fatal?
    ensures var w := Write(v, fh, data, off).vol; Balanced(v, w, 0) && v.nodes.Keys <= w.nodes.Keys
  {
    hide Reaches, DirWritten;
  }

  /** Blocks given back over a run. */
  ghost function FreedOver(v: Volume, ops: seq<Op>): nat
    decreases |ops|
  {
    if ops == [] || Apply(v, ops[0]).None? then 0
    else FreedFrom(v, Apply(v, ops[0]).value) + FreedOver(Apply(v, ops[0]).value, ops[1..])
  }

  /** Over every run, from any volume and whatever the requests: free blocks = free blocks before - ids
      handed out + blocks given back. */
  lemma {:induction false} RunCounts(v: Volume, ops: seq<Op>)
    requires Run(v, ops).Some?
    ensures Balanced(v, Run(v, ops).value, FreedOver(v, ops))
    decreases |ops|
  {
    hide Apply, FreedFrom;
    if ops != [] {
      ApplyCounts(v, ops[0]);
      RunCounts(Apply(v, ops[0]).value, ops[1..]);
    }
  }

  /** After any run from a formatted volume, the block handed out next is on a device exactly when
      fewer ids than data blocks less one were handed out: the root directory's block counts among
      them. In terms of the counters, the free count must exceed the blocks ever given back by two. */
  lemma IdOnDevice(ds: nat, nb: nat, ops: seq<Op>)
    requires ds < nb && Run(NewVolume(ds, nb), ops).Some? && AllocBlk(Run(NewVolume(ds, nb), ops).value).Ok?
    ensures var w := Run(NewVolume(ds, nb), ops).value;
            && w.next >= ds + 1
            && (AllocBlk(w).val < nb <==> (w.next - (ds + 1)) + 1 < nb - ds)
            && (AllocBlk(w).val < nb <==> FreedOver(NewVolume(ds, nb), ops) + 1 < w.free)
  {
    hide Run, FreedOver;
    RunCounts(NewVolume(ds, nb), ops);
  }

  /** With one data block the very first id handed out is already past the last block. */
  lemma IdPastEnd(ds: nat)
    ensures var v := NewVolume(ds, ds + 1); Run(v, []) == Some(v) && AllocBlk(v).Ok? && AllocBlk(v).val == v.nb
  {
  }

  /** From mkfs on, in every run: the free count is the number of data blocks less the ids handed out
      plus the blocks given back; and all invariants hold in every state if and only if every write
      is tame and every rename polite. */
  lemma FormattedRuns(nb: nat, ops: seq<Op>)
    requires Format.DataStart(nb) < nb
    ensures var ds := Format.DataStart(nb);
            var v := NewVolume(ds, nb);
            && (InvThroughout(v, ops) <==> TameRun(v, ops) && PoliteRun(v, ops))
            && (Run(v, ops).Some? ==>
                  var w := Run(v, ops).value;
                  w.next > ds && w.free + (w.next - (ds + 1)) == (nb - ds) + FreedOver(v, ops))
  {
    hide Inv, Run, TameRun, PoliteRun, InvThroughout, FreedOver;
    var ds := Format.DataStart(nb);
    NewInv(ds, nb);
    RunInvIff(NewVolume(ds, nb), ops);
    if Run(NewVolume(ds, nb), ops).Some? {
      RunCounts(NewVolume(ds, nb), ops);
    }
  }

  // ---- create, then unlink ----------------------------------------------------------

  /** What create leaves behind: the counters, the new inode, and its handle. */
  lemma Created(v: Volume, p: PlainPath)
    requires Inv(v) && Create(v, p).Ok? && Walkable(p)
    ensures AllocIno(v).Ok?
    ensures var w, i, fh := Create(v, p).vol, AllocIno(v).val, Create(v, p).val;
            && Inv(w) && w.ds == v.ds && fh !in v.open && w.open == v.open[fh := i] && Resolve(w.nodes, p) == Some(i)
            && i in w.nodes && w.nodes[i].kind == Reg && w.nodes[i].refs == 1 && w.nodes[i].links == 0
            && Freed(w.nodes[i].own, v.ds) == PREALLOC
            && w.free + (w.next - v.next) == v.free
  {
    hide Sound, Handled, Create, Resolve, Freed;
    var d, i, v1, m, n := CreateExtends(v, p);
    CreateSound(v, p);
    CreateHandled(v, p);
    CreateResolves(v, p, p);
    FreedIs(n.own, v.ds, MAX_FILE_BLKS);
  }

  lemma CreatedCounts(v: Volume, p: PlainPath)
    requires Create(v, p).Ok?
    ensures |p| < MAX_FILE_NAME_LEN
    ensures var w := Create(v, p).vol; PREALLOC <= w.next - v.next <= PREALLOC + 2 && w.inoFree + 1 == v.inoFree
  {
    hide GetDe, Insert, PutRecord, NewRaw;
  }

  lemma Released(w: Volume, fh: nat, i: nat)
    requires Inv(w) && fh in w.open && w.open[fh] == i
    ensures Release(w, fh).Ok?
    ensures var u := Release(w, fh).vol;
            && Sound(u) && SameTree(w.nodes, u.nodes) && u.open == w.open - {fh}
            && u == w.(nodes := u.nodes, open := u.open)
            && i in w.nodes && i in u.nodes && u.nodes[i] == w.nodes[i].(refs := w.nodes[i].refs - 1)
  {
    hide Sound;
    ReleaseHandled(w, fh);
    ReleaseSound(w, fh);
  }

  /** Creating a file, closing it and unlinking it gives every block back but the at most two the
      parent directory gained, and leaves every path resolving as before. */
  lemma CreateUnlink(v: Volume, p: PlainPath)
    requires Inv(v) && Create(v, p).Ok? && Walkable(p)
    requires AllocIno(v).Ok? && AllocIno(v).val < BLK_SZ_BITS
    ensures var w, fh := Create(v, p).vol, Create(v, p).val;
            && Release(w, fh).Ok?
            && var u := Release(w, fh).vol;
            && Unlink(u, p).Ok?
            && var x := Unlink(u, p).vol;
            && x.free + (x.next - v.next) == v.free + PREALLOC
            && PREALLOC <= x.next - v.next <= PREALLOC + 2
            && x.inoFree == v.inoFree && x.open == v.open
            && forall q :: Resolve(x.nodes, q) == Resolve(v.nodes, q)
  {
    hide Sound, Handled, Create, Release, Unlink, Resolve, Freed, AllocIno, SameTree;
    var w, fh, i := Create(v, p).vol, Create(v, p).val, AllocIno(v).val;
    Created(v, p);
    CreatedCounts(v, p);
    Released(w, fh, i);
    var u := Release(w, fh).vol;
    ResolveSame(w.nodes, u.nodes, p);
    UnlinkSound(u, p);
    UnlinkCounts(u, p);
    FreedHere(u, p, i);
    assert v.open[fh := i] - {fh} == v.open;
    forall q ensures Resolve(Unlink(u, p).vol.nodes, q) == Resolve(v.nodes, q) {
      UnlinkResolves(u, p, q);
      ResolveSame(w.nodes, u.nodes, q);
      CreateResolves(v, p, q);
    }
  }

  lemma FreedHere(u: Volume, p: Path, i: nat)
    requires Resolve(u.nodes, p) == Some(i)
    ensures GetDe(u.nodes, p).Found? && GetDe(u.nodes, p).ino == i
  {
  }

  // ---- handles over whole runs ------------------------------------------------------

  /** Position of the handle counter; 0 stands for the counter having run out. */
  function Rank(v: Volume): nat {
    if v.nextFd == 0 then FD_MOD else v.nextFd
  }

  /** The handle a request hands out, if any. */
  function HandleFrom(v: Volume, op: Op): Option<nat> {
    match op
    case CreateOp(p) => if Create(v, p).Ok? then Some(Create(v, p).val) else None
    case OpenOp(p, kind) => if Open(v, p, kind).Ok? then Some(Open(v, p, kind).val) else None
    case _ => None
  }

  /** A request that hands out a handle hands out the counter's value and moves the counter past it;
      no request moves the counter back. */
  lemma HandleAdvances(v: Volume, op: Op)
    requires Apply(v, op).Some? && v.nextFd < FD_MOD
    ensures var w := Apply(v, op).value;
            && w.nextFd < FD_MOD && Rank(v) <= Rank(w)
            && (HandleFrom(v, op).Some? ==> HandleFrom(v, op).value == Rank(v) < Rank(w))
  {
    hide Create, Open;
    match op
    case CreateOp(p) => CreateAdvances(v, p);
    case OpenOp(p, kind) => OpenAdvances(v, p, kind);
    case RenameOp(fr, to) => RenameKeepsTable(v, fr, to);
    case _ => OthersKeepTable(v, op);
  }

  lemma CreateAdvances(v: Volume, p: PlainPath)
    requires !Create(v, p).Fatal? && v.nextFd < FD_MOD
    ensures var w := Create(v, p).vol;
            && w.nextFd < FD_MOD && Rank(v) <= Rank(w) && (Create(v, p).Ok? ==> Create(v, p).val == Rank(v) < Rank(w))
  {
    hide GetDe, Insert, PutRecord, NewRaw;
  }

  lemma OpenAdvances(v: Volume, p: Path, kind: Kind)
    requires !Open(v, p, kind).Fatal? && v.nextFd < FD_MOD
    ensures var w := Open(v, p, kind).vol;
            && w.nextFd < FD_MOD && Rank(v) <= Rank(w)
            && (Open(v, p, kind).Ok? ==> Open(v, p, kind).val == Rank(v) < Rank(w))
  {
    hide GetDe;
  }

  lemma RenameKeepsTable(v: Volume, fr: Path, to: PlainPath)
    requires !Rename(v, fr, to).Fatal?
    ensures Rename(v, fr, to).vol.nextFd == v.nextFd
  {
    hide GetDe, Insert, Freed, PutRecord, NewRaw;
  }

  lemma OthersKeepTable(v: Volume, op: Op)
    requires !op.CreateOp? && !op.OpenOp? && !op.RenameOp? && Apply(v, op).Some?
    ensures Apply(v, op).value.nextFd == v.nextFd
  {
    hide GetDe, Insert, Freed, Splice, Reaches, Create, Open, Rename, DirWritten, PutRecord, NewRaw, DotRaw;
  }

  /** No handle is handed out twice in a run: once the 32-bit counter wraps, opening fails for good. */
  lemma {:induction false} HandlesNew(v: Volume, ops: seq<Op>, op: Op, h: nat)
    requires v.nextFd < FD_MOD && h < Rank(v) && Run(v, ops).Some? && Apply(Run(v, ops).value, op).Some?
    ensures HandleFrom(Run(v, ops).value, op) != Some(h)
    decreases |ops|
  {
    hide Apply, HandleFrom;
    if ops == [] {
      HandleAdvances(v, op);
    } else {
      HandleAdvances(v, ops[0]);
      HandlesNew(Apply(v, ops[0]).value, ops[1..], op, h);
    }
  }
}
