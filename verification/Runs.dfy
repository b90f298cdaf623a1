/** Whole runs: what holds in every state the server can reach from a sound one. */
module Runs {
  import opened Layout
  import opened Paths
  import opened Volumes
  import opened Invariants
  import opened CreateOps
  import opened Removal
  import opened RemoveOps
  import opened RenameOps
  import opened HandleOps
  import opened Raw
  import opened DirWrites

  datatype Op =
    | CreateOp(name: PlainPath)
    | MkdirOp(name: PlainPath)
    | UnlinkOp(p: Path)
    | RmdirOp(p: Path)
    | RenameOp(fr: Path, to: PlainPath)
    | OpenOp(p: Path, kind: Kind)
    | ReleaseOp(fh: nat)
    | ReadOp(fh: nat, size: nat, off: nat)
    | WriteOp(fh: nat, data: seq<Byte>, off: nat)

  function After<T>(r: Outcome<T>): Option<Volume> {
    if r.Fatal? then None else Some(r.vol)
  }

  /** The volume after one request; None when the server stops. */
  function Apply(v: Volume, op: Op): Option<Volume> {
    match op
    case CreateOp(p) => After(Create(v, p))
    case MkdirOp(p) => After(Mkdir(v, p))
    case UnlinkOp(p) => After(Unlink(v, p))
    case RmdirOp(p) => After(Rmdir(v, p))
    case RenameOp(fr, to) => After(Rename(v, fr, to))
    case OpenOp(p, kind) => After(Open(v, p, kind))
    case ReleaseOp(fh) => After(Release(v, fh))
    case ReadOp(fh, size, off) => After(Read(v, fh, size, off))
    case WriteOp(fh, data, off) => After(Write(v, fh, data, off))
  }

  /** Only a write can fail to be tame: one through the handle of a directory that leaves dentries there
      which do not fit. */
  ghost predicate Tame(v: Volume, op: Op) {
    op.WriteOp? ==> HarmlessVia(v, op.fh, op.data, op.off)
  }

  /** The request does not rename a file over one that somebody has open. */
  predicate Polite(v: Volume, op: Op) {
    op.RenameOp? && Movable(v, op.fr) && op.to != op.fr
    && Resolve(v.nodes, op.to).Some? && Resolve(v.nodes, op.to).value in v.nodes
    ==> v.nodes[Resolve(v.nodes, op.to).value].refs == 0
  }

  /** One request keeps the volume sound, unless it is a write that is not tame. */
  lemma ApplySoundIff(v: Volume, op: Op)
    requires Sound(v) && Apply(v, op).Some?
    ensures Sound(Apply(v, op).value) <==> Tame(v, op)
  {
    hide Sound, Create, Mkdir, Unlink, Rmdir, Rename, Open, Release, Write, HarmlessVia;
    match op
    case CreateOp(p) => CreateSound(v, p);
    case MkdirOp(p) => MkdirSound(v, p);
    case UnlinkOp(p) => UnlinkSound(v, p);
    case RmdirOp(p) => RmdirSound(v, p);
    case RenameOp(fr, to) => RenameSound(v, fr, to);
    case OpenOp(p, kind) => OpenSound(v, p, kind);
    case ReleaseOp(fh) => ReleaseIs(v, fh); ReleaseSound(v, fh);
    case ReadOp(fh, size, off) =>
    case WriteOp(fh, data, off) => WriteIs(v, fh, data, off); WriteSoundIff(v, fh, data, off);
  }

  lemma ReleaseIs(v: Volume, fh: nat)
    requires After(Release(v, fh)).Some?
    ensures Release(v, fh).Ok?
  {
  }

  lemma WriteIs(v: Volume, fh: nat, data: seq<Byte>, off: nat)
    requires After(Write(v, fh, data, off)).Some?
    ensures Write(v, fh, data, off).Ok? && fh in v.open && v.open[fh] in v.nodes
  {
  }

  /** One request keeps the open-file table exact as well, unless it is a write that is not tame or a
      rename that is not polite. */
  lemma ApplyInvIff(v: Volume, op: Op)
    requires Inv(v) && Apply(v, op).Some?
    ensures Inv(Apply(v, op).value) <==> Tame(v, op) && Polite(v, op)
  {
    hide Sound, Handled, Create, Mkdir, Unlink, Rmdir, Rename, Open, Release, Write, Resolve, Tame, Polite;
    ApplySoundIff(v, op);
    NotARename(v, op);
    match op
    case CreateOp(p) => CreateSound(v, p); if Create(v, p).Ok? { CreateHandled(v, p); }
    case MkdirOp(p) => MkdirInv(v, p);
    case UnlinkOp(p) => UnlinkInv(v, p);
    case RmdirOp(p) => RmdirInv(v, p);
    case RenameOp(fr, to) => RenameInvIff(v, fr, to);
    case OpenOp(p, kind) => OpenSound(v, p, kind); if Open(v, p, kind).Ok? { OpenHandled(v, p, kind); }
    case ReleaseOp(fh) => ReleaseIs(v, fh); ReleaseHandled(v, fh);
    case ReadOp(fh, size, off) =>
    case WriteOp(fh, data, off) => WriteHandled(v, fh, data, off);
  }

  lemma NotARename(v: Volume, op: Op)
    ensures !op.RenameOp? ==> Polite(v, op)
    ensures !op.WriteOp? ==> Tame(v, op)
  {
  }

  lemma MkdirInv(v: Volume, p: PlainPath)
    requires Inv(v) && !Mkdir(v, p).Fatal?
    ensures Inv(Mkdir(v, p).vol)
  {
    hide Sound, Handled;
    MkdirSound(v, p);
    if Mkdir(v, p).Ok? {
      MkdirHandled(v, p);
    }
  }

  lemma UnlinkInv(v: Volume, p: Path)
    requires Inv(v) && !Unlink(v, p).Fatal?
    ensures Inv(Unlink(v, p).vol)
  {
    hide Sound, Handled, RemoveEntry;
    UnlinkSound(v, p);
    if Unlink(v, p).Ok? {
      UnlinkHandled(v, p);
    }
  }

  lemma RmdirInv(v: Volume, p: Path)
    requires Inv(v) && !Rmdir(v, p).Fatal?
    ensures Inv(Rmdir(v, p).vol)
  {
    hide Sound, Handled, RemoveEntry;
    RmdirSound(v, p);
    if Rmdir(v, p).Ok? {
      RmdirHandled(v, p);
    }
  }

  /** A refused rename leaves every reference count alone, even when it lost the source's name. */
  lemma RenameInvIff(v: Volume, fr: Path, to: PlainPath)
    requires Inv(v) && !Rename(v, fr, to).Fatal?
    ensures Inv(Rename(v, fr, to).vol) <==> Polite(v, RenameOp(fr, to))
  {
    hide Sound, Handled, Detach, Attach, Resolve, Unnamed, Movable;
    RenameSound(v, fr, to);
    DetachIff(v, fr);
    if Rename(v, fr, to).Ok? {
      RenameHandledIff(v, fr, to);
    } else {
      DetachIs(v, fr);
      if Detach(v, fr).Ok? {
        DetachSound(v, fr);
        var u := Detach(v, fr).vol;
        AttachSound(u, to, Detach(v, fr).val);
        SameRefsHandled(v.nodes, u.nodes, v.open, v.nextFd);
        DetachResolves(v, fr, to);
        FreeTarget(u, to, Detach(v, fr).val);
      }
    }
  }

  lemma FreeTarget(u: Volume, to: PlainPath, f: nat)
    requires Attach(u, to, f).Refused?
    ensures Resolve(u.nodes, to).None?
  {
    hide GetDe;
  }

  lemma WriteHandled(v: Volume, fh: nat, data: seq<Byte>, off: nat)
    requires Handled(v.nodes, v.open, v.nextFd) && !Write(v, fh, data, off).Fatal?
    ensures var w := Write(v, fh, data, off).vol; Handled(w.nodes, w.open, w.nextFd)
  {
    hide Handled, Affordable, SlotsIn, GrowTo, Reaches;
    SameRefsHandled(v.nodes, Write(v, fh, data, off).vol.nodes, v.open, v.nextFd);
  }

  // ---- runs -------------------------------------------------------------------------

  function Run(v: Volume, ops: seq<Op>): Option<Volume>
    decreases |ops|
  {
    if ops == [] then Some(v)
    else
      var w := Apply(v, ops[0]);
      if w.None? then None else Run(w.value, ops[1..])
  }

  /** No request of the run that the server survives is a write that is not tame. */
  ghost predicate TameRun(v: Volume, ops: seq<Op>)
    decreases |ops|
  {
    ops != [] && Apply(v, ops[0]).Some? ==> Tame(v, ops[0]) && TameRun(Apply(v, ops[0]).value, ops[1..])
  }

  /** No request of the run that the server survives is a rename that is not polite. */
  ghost predicate PoliteRun(v: Volume, ops: seq<Op>)
    decreases |ops|
  {
    ops != [] && Apply(v, ops[0]).Some? ==> Polite(v, ops[0]) && PoliteRun(Apply(v, ops[0]).value, ops[1..])
  }

  /** The volume is sound in every state of the run. */
  ghost predicate SoundThroughout(v: Volume, ops: seq<Op>)
    decreases |ops|
  {
    Sound(v) && (ops != [] && Apply(v, ops[0]).Some? ==> SoundThroughout(Apply(v, ops[0]).value, ops[1..]))
  }

  ghost predicate InvThroughout(v: Volume, ops: seq<Op>)
    decreases |ops|
  {
    Inv(v) && (ops != [] && Apply(v, ops[0]).Some? ==> InvThroughout(Apply(v, ops[0]).value, ops[1..]))
  }

  /** In every run from a sound volume, every state is sound (search complete, no block handed out
      twice, names injective, bitmap and counters in agreement) if and only if every write is tame. */
  lemma {:induction false} RunSoundIff(v: Volume, ops: seq<Op>)
    requires Sound(v)
    ensures SoundThroughout(v, ops) <==> TameRun(v, ops)
    ensures TameRun(v, ops) && Run(v, ops).Some? ==> Sound(Run(v, ops).value)
    decreases |ops|
  {
    hide Sound, Apply, Tame;
    if ops != [] && Apply(v, ops[0]).Some? {
      ApplySoundIff(v, ops[0]);
      var w := Apply(v, ops[0]).value;
      if Sound(w) {
        RunSoundIff(w, ops[1..]);
      } else {
        assert !SoundThroughout(w, ops[1..]);
      }
    }
  }

  /** Moreover reference counts equal the number of handles, and no handle names a freed inode, in
      every state if and only if no rename replaces a file that is open. */
  lemma {:induction false} RunInvIff(v: Volume, ops: seq<Op>)
    requires Inv(v)
    ensures InvThroughout(v, ops) <==> TameRun(v, ops) && PoliteRun(v, ops)
    ensures TameRun(v, ops) && PoliteRun(v, ops) && Run(v, ops).Some? ==> Inv(Run(v, ops).value)
    decreases |ops|
  {
    hide Inv, Apply, Tame, Polite;
    if ops != [] && Apply(v, ops[0]).Some? {
      ApplyInvIff(v, ops[0]);
      var w := Apply(v, ops[0]).value;
      if Inv(w) {
        RunInvIff(w, ops[1..]);
      } else {
        assert !InvThroughout(w, ops[1..]);
      }
    }
  }
}
