/** Exactly when requests succeed, are refused, or bring the server down. */
module Outcomes {
  import opened Layout
  import opened Paths
  import opened Directory
  import opened Volumes
  import opened Invariants
  import opened Growth
  import opened Removal
  import opened RemoveOps
  import opened RenameOps

  /** The path cannot be given to a new file: too long, taken, or below a regular file. */
  predicate Unfit(v: Volume, p: Path) {
    || |p| + 1 > MAX_FILE_NAME_LEN
    || Resolve(v.nodes, p).Some?
    || (Absolute(p) && p != "/" && ThroughFile(v.nodes, p, ""))
  }

  predicate HasDir(v: Volume, p: Path) {
    var up := Resolve(v.nodes, Dirname(p));
    up.Some? && up.value in v.nodes && v.nodes[up.value].kind == Dir
  }

  /** Directory d can take one more name and `blocks` more blocks can be allocated, the one with
      `reach` allocations before it still on a device. */
  predicate Room(v: Volume, d: nat, blocks: nat, reach: nat)
    requires d in v.nodes
  {
    var s := v.nodes[d].slots;
    var c := |s| / NUM_DIRENTS_PER_BLOCK;
    var need := if FirstEmpty(s) < |s| then 0 else if c == NUM_DIRECT_BLOCKS then 2 else 1;
    && (need > 0 ==> c < MAX_FILE_BLKS)
    && v.free >= need + blocks && v.next + need + reach < v.nb
  }

  lemma NewEntryIff(v: Volume, p: Path)
    requires Sound(v)
    ensures NewEntryDir(v, p).Refused? <==> Unfit(v, p)
    ensures NewEntryDir(v, p).Ok? <==> !Unfit(v, p) && HasDir(v, p)
    ensures NewEntryDir(v, p).Ok? ==> Resolve(v.nodes, Dirname(p)) == Some(NewEntryDir(v, p).val)
    ensures NewEntryDir(v, p).Refused? ==> NewEntryDir(v, p).vol == v
  {
    hide Sound, ThroughFile;
    FoundLive(v, p);
    FoundLive(v, Dirname(p));
    if Absolute(p) && p != "/" {
      SoundNot(v, p);
      ParentWalk(v, p);
    }
  }

  lemma SoundNot(v: Volume, p: Path)
    requires Sound(v) && Absolute(p)
    ensures Walk(v.nodes, p).NotDir? <==> ThroughFile(v.nodes, p, "")
  {
    NotDirIff(v.nodes, v.ds, v.nb, p);
  }

  /** If the parent's walk runs into a file, so does the path's own. */
  lemma ParentWalk(v: Volume, p: Path)
    requires Sound(v) && Absolute(p) && p != "/"
    ensures GetDe(v.nodes, Dirname(p)).NotDir? ==> GetDe(v.nodes, p).NotDir?
  {
    var k := LastSlash(p);
    assert p[0] == '/' && '/' in p;
  }

  /** create succeeds exactly when the path is fit, its directory exists, and an inode, a handle and
      all blocks are to be had; it is refused exactly for an unfit path or a full inode table. */
  lemma CreateIff(v: Volume, p: PlainPath)
    requires Sound(v)
    ensures Create(v, p).Refused? <==> Unfit(v, p) || (HasDir(v, p) && v.inoFree == 0)
    ensures Create(v, p).Ok? <==>
            && !Unfit(v, p) && HasDir(v, p) && v.inoFree > 0
            && |v.open| != MAX_OPEN_FILES && v.nextFd >= START_FD
            && Room(v, Resolve(v.nodes, Dirname(p)).value, PREALLOC, NUM_DIRECT_BLOCKS)
  {
    hide Sound, NewEntryDir, AllocIno, Resolve, Insert, FirstEmpty, ThroughFile;
    NewEntryIff(v, p);
    InoFacts(v);
    if NewEntryDir(v, p).Ok? && v.inoFree > 0 {
      NewFileIff(AllocIno(v).vol, NewEntryDir(v, p).val, p, AllocIno(v).val);
    }
  }

  lemma InoFacts(v: Volume)
    requires Sound(v)
    ensures AllocIno(v).Ok? <==> v.inoFree > 0
    ensures AllocIno(v).Refused? <==> v.inoFree == 0
    ensures AllocIno(v).Ok? ==>
              && AllocIno(v).val >= FIRST_UNRESERVED_INO
              && AllocIno(v).vol == v.(bitmap := AllocIno(v).vol.bitmap, inoFree := v.inoFree - 1)
  {
    AllocInoSound(v);
  }

  lemma NewFileIff(v: Volume, d: nat, p: PlainPath, i: nat)
    requires d in v.nodes && |p| + 1 <= MAX_FILE_NAME_LEN
    ensures !NewFile(v, d, p, i).Refused?
    ensures NewFile(v, d, p, i).Ok? <==>
            |v.open| != MAX_OPEN_FILES && v.nextFd >= START_FD && Room(v, d, PREALLOC, NUM_DIRECT_BLOCKS)
  {
    hide Insert, FirstEmpty;
  }

  lemma NewDirIff(v: Volume, d: nat, p: PlainPath, i: nat)
    requires d in v.nodes && |p| + 1 <= MAX_FILE_NAME_LEN
    ensures !NewDir(v, d, p, i).Refused?
    ensures NewDir(v, d, p, i).Ok? <==> Room(v, d, 1, 0)
  {
    hide Insert, FirstEmpty;
  }

  /** mkdir, likewise, with one block and no handle. */
  lemma MkdirIff(v: Volume, p: PlainPath)
    requires Sound(v)
    ensures Mkdir(v, p).Refused? <==> Unfit(v, p) || (HasDir(v, p) && v.inoFree == 0)
    ensures Mkdir(v, p).Ok? <==>
            && !Unfit(v, p) && HasDir(v, p) && v.inoFree > 0
            && Room(v, Resolve(v.nodes, Dirname(p)).value, 1, 0)
  {
    hide Sound, NewEntryDir, AllocIno, Resolve, Insert, FirstEmpty, ThroughFile;
    NewEntryIff(v, p);
    InoFacts(v);
    if NewEntryDir(v, p).Ok? && v.inoFree > 0 {
      NewDirIff(AllocIno(v).vol, NewEntryDir(v, p).val, p, AllocIno(v).val);
    }
  }

  /** open succeeds exactly for an existing path of the right kind while handles last. */
  lemma OpenIff(v: Volume, p: Path, kind: Kind)
    requires Sound(v)
    ensures Open(v, p, kind).Ok? <==>
            && |p| < MAX_FILE_NAME_LEN && |v.open| != MAX_OPEN_FILES && v.nextFd >= START_FD
            && Resolve(v.nodes, p).Some? && Resolve(v.nodes, p).value in v.nodes
            && v.nodes[Resolve(v.nodes, p).value].kind == kind
    ensures Open(v, p, kind).Refused? <==>
            || |p| >= MAX_FILE_NAME_LEN || Resolve(v.nodes, p).None?
            || (Resolve(v.nodes, p).value in v.nodes && v.nodes[Resolve(v.nodes, p).value].kind != kind)
  {
    hide Sound, GetDe;
    FoundLive(v, p);
  }

  // ---- rename -----------------------------------------------------------------------

  /** Directory d can take one more name. */
  predicate RoomFor(v: Volume, d: nat)
    requires d in v.nodes
  {
    var s := v.nodes[d].slots;
    var c := |s| / NUM_DIRENTS_PER_BLOCK;
    FirstEmpty(s) < |s| || (c < MAX_FILE_BLKS && v.free >= Need(c) && v.next + Need(c) <= v.nb)
  }

  lemma AddIff(v: Volume, d: nat, name: PlainPath, ino: nat)
    requires d in v.nodes
    ensures AddDentry(v, d, name, ino).Ok? <==> |name| < MAX_FILE_NAME_LEN && RoomFor(v, d)
  {
    hide Insert, FirstEmpty;
  }

  lemma ParentIff(v: Volume, p: Path)
    requires Sound(v)
    ensures ParentDir(v, p).Ok? <==> HasDir(v, p)
    ensures ParentDir(v, p).Ok? ==>
              Resolve(v.nodes, Dirname(p)) == Some(ParentDir(v, p).val) && ParentDir(v, p).val in v.nodes
  {
    hide Sound, GetDe;
    FoundLive(v, Dirname(p));
  }

  /** The second half of a rename: what must hold of the volume without the source's name. */
  lemma AttachIff(u: Volume, to: PlainPath, f: nat)
    requires Sound(u) && Loose(u, f)
    ensures Attach(u, to, f).Ok? <==>
            if Resolve(u.nodes, to).Some? then to != "/" && Resolve(u.nodes, to).value < BLK_SZ_BITS
            else && !GetDe(u.nodes, to).NotDir? && |to| < MAX_FILE_NAME_LEN && HasDir(u, to)
                 && RoomFor(u, Resolve(u.nodes, Dirname(to)).value)
  {
    hide Sound, Loose, GetDe, AddDentry, Unnamed, Entry, Fits, ParentDir, RoomFor;
    FoundLive(u, to);
    var t := GetDe(u.nodes, to);
    if t.Found? {
      ReplaceIs(u, to, f);
    } else if t.Missing? {
      ParentIff(u, to);
      if ParentDir(u, to).Ok? {
        AddIff(u, ParentDir(u, to).val, to, f);
      }
    }
  }

  /** Taking the source's name away frees a slot of its own directory and changes no other. */
  lemma DetachRoom(v: Volume, fr: Path, d: nat)
    requires Sound(v) && Detach(v, fr).Ok? && d in v.nodes && v.nodes[d].kind == Dir
    ensures d in Detach(v, fr).vol.nodes
    ensures RoomFor(Detach(v, fr).vol, d) <==> Resolve(v.nodes, Dirname(fr)) == Some(d) || RoomFor(v, d)
  {
    hide Sound, Detach;
    DetachIs(v, fr);
    var l := GetDe(v.nodes, fr);
    if d == l.dir {
      var s := v.nodes[d].slots[l.slot := EMPTY];
      assert s[l.slot].name == "";
    }
  }

  lemma DetachDirs(v: Volume, fr: Path, to: Path)
    requires Sound(v) && Detach(v, fr).Ok?
    ensures HasDir(Detach(v, fr).vol, to) <==> HasDir(v, to)
    ensures HasDir(v, to) ==> Resolve(Detach(v, fr).vol.nodes, Dirname(to)) == Resolve(v.nodes, Dirname(to))
  {
    hide Sound, Detach, Resolve, Unnamed;
    DetachSound(v, fr);
    DetachResolves(v, fr, Dirname(to));
  }

  /** rename succeeds exactly when the source is a file, and the target either leads to an inode that
      can be freed, or is free, short enough, not below another regular file, and its directory exists
      and has room, counting the slot the source itself leaves. */
  lemma RenameIff(v: Volume, fr: Path, to: PlainPath)
    requires Sound(v)
    ensures Rename(v, fr, to).Ok? <==>
            && Movable(v, fr)
            && if to != fr && Resolve(v.nodes, to).Some? then to != "/" && Resolve(v.nodes, to).value < BLK_SZ_BITS
               else && !(Absolute(to) && ThroughFile(v.nodes, to, fr)) && |to| < MAX_FILE_NAME_LEN && HasDir(v, to)
                    && (Resolve(v.nodes, Dirname(fr)) == Resolve(v.nodes, Dirname(to))
                        || RoomFor(v, Resolve(v.nodes, Dirname(to)).value))
  {
    hide Sound, Detach, Attach, Resolve, Unnamed, RoomFor, ThroughFile;
    DetachIff(v, fr);
    if Detach(v, fr).Ok? {
      var u, f := Detach(v, fr).vol, Detach(v, fr).val;
      DetachSound(v, fr);
      DetachResolves(v, fr, to);
      AttachIff(u, to, f);
      TargetBlocked(v, u, fr, to);
      DetachDirs(v, fr, to);
      if HasDir(v, to) {
        DetachRoom(v, fr, Resolve(v.nodes, Dirname(to)).value);
      }
    }
  }

  /** rename's first half is refused exactly for a source that is too long, that lies below a regular
      file, or whose directory is there while it is missing or a directory itself. */
  lemma DetachRefusedIff(v: Volume, fr: Path)
    requires Sound(v)
    ensures Detach(v, fr).Refused? <==>
            || |fr| >= MAX_FILE_NAME_LEN
            || (Absolute(Dirname(fr)) && ThroughFile(v.nodes, Dirname(fr), ""))
            || (HasDir(v, fr) && !Movable(v, fr))
  {
    hide Sound, ThroughFile, GetDe, Dirname;
    FoundLive(v, fr);
    FoundLive(v, Dirname(fr));
    BelowFile(v, Dirname(fr));
    ParentIff(v, fr);
    DetachIff(v, fr);
  }

  lemma BelowFile(v: Volume, p: Path)
    requires Sound(v)
    ensures GetDe(v.nodes, p).NotDir? <==> Absolute(p) && ThroughFile(v.nodes, p, "")
  {
    hide Sound;
    if Absolute(p) && p != "/" {
      hide ThroughFile;
      SoundNot(v, p);
    }
  }

  /** rename is refused exactly when its first half is, or when the target lies below a regular file
      other than the source. */
  lemma RenameRefusedIff(v: Volume, fr: Path, to: PlainPath)
    requires Sound(v)
    ensures Rename(v, fr, to).Refused? <==>
            || |fr| >= MAX_FILE_NAME_LEN
            || (Absolute(Dirname(fr)) && ThroughFile(v.nodes, Dirname(fr), ""))
            || (HasDir(v, fr) && !Movable(v, fr))
            || (Movable(v, fr) && Absolute(to) && ThroughFile(v.nodes, to, fr))
  {
    hide Sound, Detach, Attach, Unnamed, Movable, ThroughFile, HasDir, Dirname;
    DetachRefusedIff(v, fr);
    DetachIff(v, fr);
    if Detach(v, fr).Ok? {
      var u, f := Detach(v, fr).vol, Detach(v, fr).val;
      DetachSound(v, fr);
      AttachSound(u, to, f);
      TargetBlocked(v, u, fr, to);
    }
  }
}
