/** What a client sees: for every path nothing, a folder, or a file with its bytes. */
module Views {
  import opened Layout
  import opened Paths
  import opened Volumes
  import opened Invariants
  import opened Growth
  import opened CreateOps
  import opened Removal
  import opened RemoveOps
  import opened RenameOps
  import opened HandleOps

  datatype Seen = Folder | File(bytes: seq<Byte>)

  function SeenAs(n: Node): Seen {
    if n.kind == Dir then Folder else File(n.bytes)
  }

  function View(v: Volume, q: Path): Option<Seen> {
    var r := Resolve(v.nodes, q);
    if r.Some? && r.value in v.nodes then Some(SeenAs(v.nodes[r.value])) else None
  }

  /** Inodes that are in both volumes look the same. */
  ghost predicate SameFiles(a: Nodes, b: Nodes) {
    forall i :: i in a && i in b ==> SeenAs(b[i]) == SeenAs(a[i])
  }

  /** A path that leads to the same inode as some path did before shows what that path showed. */
  lemma ViewKept(v: Volume, w: Volume, q: Path, q': Path)
    requires Sound(v) && Sound(w) && SameFiles(v.nodes, w.nodes)
    requires Resolve(w.nodes, q) == Resolve(v.nodes, q')
    ensures View(w, q) == View(v, q')
  {
    hide Sound;
    FoundLive(v, q');
    FoundLive(w, q);
  }

  /** create: p is an empty file, every other path shows what it showed. */
  lemma CreateView(v: Volume, p: PlainPath, q: Path)
    requires Sound(v) && Create(v, p).Ok?
    ensures View(v, p).None?
    ensures View(Create(v, p).vol, q) == if q == p && Walkable(p) then Some(File([])) else View(v, q)
  {
    hide Sound, Create, Resolve, AllocIno;
    var w := Create(v, p).vol;
    var d, i, v1, m, n := CreateExtends(v, p);
    CreateSound(v, p);
    CreateResolves(v, p, q);
    ExtendsFiles(v, w, d, p, i, m, n);
    if q == p && Walkable(p) {
      assert w.nodes[i] == n;
    } else {
      ViewKept(v, w, q, q);
    }
  }

  /** mkdir: p is a folder, every other path shows what it showed. */
  lemma MkdirView(v: Volume, p: PlainPath, q: Path)
    requires Sound(v) && Mkdir(v, p).Ok?
    ensures View(v, p).None?
    ensures View(Mkdir(v, p).vol, q) == if q == p && Walkable(p) then Some(Folder) else View(v, q)
  {
    hide Sound, Mkdir, Resolve, AllocIno;
    var w := Mkdir(v, p).vol;
    var d, i, m, n := MkdirExtends(v, p);
    MkdirSound(v, p);
    MkdirResolves(v, p, q);
    ExtendsFiles(v, w, d, p, i, m, n);
    if q == p && Walkable(p) {
      assert w.nodes[i] == n;
    } else {
      ViewKept(v, w, q, q);
    }
  }

  lemma ExtendsFiles(v: Volume, w: Volume, d: nat, p: Path, i: nat, m: Node, n: Node)
    requires Extends(v, w, d, p, i, m, n)
    ensures SameFiles(v.nodes, w.nodes) && i in w.nodes && w.nodes[i] == n
  {
  }

  lemma RemoveFiles(v: Volume, p: Path, l: Look)
    requires Sound(v) && p != "/" && l == GetDe(v.nodes, p) && l.Found? && l.ino in v.nodes && RemoveEntry(v, p, l).Ok?
    ensures SameFiles(v.nodes, RemoveEntry(v, p, l).vol.nodes)
  {
    hide Sound, GetDe, RemoveEntry, Entry;
    EntryPlace(v, p, l);
    RemoveEntryIs(v, p, l);
  }

  lemma EntryPlace(v: Volume, p: Path, l: Look)
    requires Sound(v) && p != "/" && l == GetDe(v.nodes, p) && l.Found?
    ensures l.dir in v.nodes && v.nodes[l.dir].kind == Dir && l.slot < |v.nodes[l.dir].slots|
  {
    FoundEntry(v.nodes, v.ds, v.nb, p);
  }

  /** unlink: p is gone, every other path shows what it showed. */
  lemma UnlinkView(v: Volume, p: Path, q: Path)
    requires Sound(v) && Unlink(v, p).Ok?
    ensures View(v, p).Some? && View(v, p).value.File?
    ensures View(Unlink(v, p).vol, q) == if q == p then None else View(v, q)
  {
    hide Sound, GetDe, RemoveEntry;
    UnlinkSound(v, p);
    UnlinkResolves(v, p, q);
    NotSlash(v, p);
    RemoveFiles(v, p, GetDe(v.nodes, p));
    if q != p {
      ViewKept(v, Unlink(v, p).vol, q, q);
    }
  }

  lemma NotSlash(v: Volume, p: Path)
    requires Sound(v) && Unlink(v, p).Ok?
    ensures p != "/"
  {
  }

  /** rmdir: p is gone, every other path shows what it showed. */
  lemma RmdirView(v: Volume, p: Path, q: Path)
    requires Sound(v) && Rmdir(v, p).Ok?
    ensures View(v, p) == Some(Folder)
    ensures View(Rmdir(v, p).vol, q) == if q == p then None else View(v, q)
  {
    hide Sound, GetDe, RemoveEntry;
    RmdirSound(v, p);
    RmdirResolves(v, p, q);
    RemoveFiles(v, p, GetDe(v.nodes, p));
    if q != p {
      ViewKept(v, Rmdir(v, p).vol, q, q);
    }
  }

  lemma AttachFiles(u: Volume, to: PlainPath, f: nat)
    requires Sound(u) && Loose(u, f) && Attach(u, to, f).Ok?
    ensures SameFiles(u.nodes, Attach(u, to, f).vol.nodes)
  {
    hide Sound, Loose, Entry, Fits, Unnamed, ParentDir;
    AttachSound(u, to, f);
    FoundLive(u, to);
    var t := GetDe(u.nodes, to);
    if t.Found? {
      ReplaceIs(u, to, f);
      EntryPlace(u, to, t);
    } else {
      AttachNewIs(u, to, f);
      EnteredFiles(u, Attach(u, to, f).vol, ParentDir(u, to).val, to, f);
    }
  }

  lemma EnteredFiles(u: Volume, w: Volume, d: nat, to: Path, f: nat)
    requires Entered(u, w, d, to, f)
    ensures SameFiles(u.nodes, w.nodes)
  {
  }

  lemma DetachFiles(v: Volume, fr: Path)
    requires Sound(v) && Detach(v, fr).Ok?
    ensures SameFiles(v.nodes, Detach(v, fr).vol.nodes) && v.nodes.Keys == Detach(v, fr).vol.nodes.Keys
  {
    hide Sound, Detach;
    DetachSound(v, fr);
  }

  /** rename: the target shows the source's file, the source and whatever was below a replaced target
      are gone, every other path shows what it showed. */
  lemma RenameView(v: Volume, fr: Path, to: PlainPath, q: Path)
    requires Sound(v) && Rename(v, fr, to).Ok?
    ensures View(v, fr).Some? && View(v, fr).value.File?
    ensures View(Rename(v, fr, to).vol, q) ==
            if q == to && Walkable(to) then View(v, fr)
            else if q == fr || Under(q, to) then None
            else View(v, q)
  {
    hide Sound, Detach, Attach, Unnamed;
    var w := Rename(v, fr, to).vol;
    RenameSound(v, fr, to);
    RenameResolves(v, fr, to, q);
    DetachSound(v, fr);
    DetachFiles(v, fr);
    AttachFiles(Detach(v, fr).vol, to, Detach(v, fr).val);
    if q == to && Walkable(to) {
      ViewKept(v, w, q, fr);
    } else if q != fr && !Under(q, to) {
      ViewKept(v, w, q, q);
    }
  }

  /** open and opendir show nothing new. */
  lemma OpenView(v: Volume, p: Path, kind: Kind, q: Path)
    requires Sound(v) && Open(v, p, kind).Ok?
    ensures View(Open(v, p, kind).vol, q) == View(v, q)
  {
    hide Sound, GetDe;
    OpenSound(v, p, kind);
    ResolveSame(v.nodes, Open(v, p, kind).vol.nodes, q);
    ViewKept(v, Open(v, p, kind).vol, q, q);
  }

  lemma ReleaseView(v: Volume, fh: nat, q: Path)
    requires Sound(v) && Release(v, fh).Ok?
    ensures View(Release(v, fh).vol, q) == View(v, q)
  {
    hide Sound, GetDe;
    ReleaseSound(v, fh);
    ResolveSame(v.nodes, Release(v, fh).vol.nodes, q);
    ViewKept(v, Release(v, fh).vol, q, q);
  }

  /** write within the largest file: the one path of that file shows the spliced bytes, every other
      path shows what it showed. */
  lemma WriteView(v: Volume, fh: nat, data: seq<Byte>, off: nat, q: Path)
    requires Sound(v) && Write(v, fh, data, off).Ok? && v.nodes[v.open[fh]].kind == Reg
    requires off + |data| <= MAX_FILE_BYTES
    ensures View(Write(v, fh, data, off).vol, q) ==
            if Resolve(v.nodes, q) == Some(v.open[fh]) then Some(File(Splice(v.nodes[v.open[fh]].bytes, off, data)))
            else View(v, q)
  {
    hide Sound, GetDe, Splice, Reaches;
    var w := Write(v, fh, data, off).vol;
    WriteSound(v, fh, data, off);
    ResolveSame(v.nodes, w.nodes, q);
    FoundLive(v, q);
  }

  /** No file has two paths. */
  lemma OnePath(v: Volume, p: Path, q: Path)
    requires Sound(v) && Resolve(v.nodes, p).Some? && Resolve(v.nodes, p) == Resolve(v.nodes, q) && p != "/" && q != "/"
    ensures p == q
  {
    FoundEntry(v.nodes, v.ds, v.nb, p);
    FoundEntry(v.nodes, v.ds, v.nb, q);
  }
}
