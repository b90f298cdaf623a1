/** Searching directories block by block, and the walk along a path. */
module Lookup {
  import opened Layout
  import opened Paths
  import opened Directory
  import opened Volumes
  import opened Invariants
  import opened Blocks

  /** What a scan of dentries is for: get_de, readdir, or an empty slot to fill. */
  datatype Handler = ByName | Listing | EmptySlot

  /** Nothing live after slot n: the entries up to n are all there are. */
  lemma {:induction false} EntriesTail(s: seq<Dentry>, n: nat, m: nat)
    requires n <= m <= |s| && forall i :: n <= i < m ==> !Live(s[i])
    ensures Entries(s, m) == Entries(s, n)
  {
    if n < m {
      EntriesTail(s, n, m - 1);
    }
  }

  /** The slots of s from base on that make up one block. */
  ghost predicate Window(s: seq<Dentry>, base: nat, blk: DentBlk) {
    base + NUM_DIRENTS_PER_BLOCK <= |s| && forall x :: 0 <= x < NUM_DIRENTS_PER_BLOCK ==> s[base + x] == blk[x]
  }

  /** What a search or listing has established once the slots below n have been looked at. */
  ghost predicate SeenBelow(s: seq<Dentry>, n: nat, h: Handler, q: string, tested: nat, ents: seq<Dentry>) {
    && n <= |s| && tested == |LiveBelow(s, n)|
    && (h == ByName ==> forall i :: 0 <= i < n ==> !Hit(s[i], q))
    && (h == Listing ==> ents == Entries(s, n))
  }

  lemma SeenDead(s: seq<Dentry>, n: nat, h: Handler, q: string, tested: nat, ents: seq<Dentry>)
    requires n < |s| && SeenBelow(s, n, h, q, tested, ents) && !Live(s[n])
    ensures SeenBelow(s, n + 1, h, q, tested, ents)
  {
    LiveBelowStep(s, n);
  }

  lemma SeenLive(s: seq<Dentry>, n: nat, h: Handler, q: string, tested: nat, ents: seq<Dentry>)
    requires n < |s| && SeenBelow(s, n, h, q, tested, ents) && Live(s[n])
    requires h == ByName ==> s[n].name != q
    ensures SeenBelow(s, n + 1, h, q, tested + 1, if h == Listing then ents + [s[n]] else ents)
  {
    LiveBelowStep(s, n);
  }

  /** Stopping early misses nothing: as many live slots were seen as there are. */
  lemma SeenAll(s: seq<Dentry>, n: nat, h: Handler, q: string, tested: nat, ents: seq<Dentry>)
    requires SeenBelow(s, n, h, q, tested, ents) && tested == |LiveSet(s)|
    ensures SeenBelow(s, |s|, h, q, tested, ents)
  {
    AllSeen(s, n);
    EntriesTail(s, n, |s|);
  }

  lemma SeenHit(s: seq<Dentry>, n: nat, q: string, tested: nat, ents: seq<Dentry>)
    requires n < |s| && SeenBelow(s, n, ByName, q, tested, ents) && Hit(s[n], q)
    ensures Find(s, q) == n
  {
    assert Hit(s[n], q);
  }

  /** check_each_dentry: one block of the directory whose slots are s. */
  method CheckEachDentry(blk: DentBlk, links: int, h: Handler, q: string, tested0: nat, ents0: seq<Dentry>,
                         ghost s: seq<Dentry>, ghost base: nat)
    returns (hit: bool, all: bool, tested: nat, idx: nat, ents: seq<Dentry>)
    requires Window(s, base, blk)
    requires h != EmptySlot ==> SeenBelow(s, base, h, q, tested0, ents0) && links == |LiveSet(s)|
    requires h == EmptySlot ==> q == ""
    ensures h == EmptySlot ==> !all
    ensures h == EmptySlot && hit ==>
              idx < NUM_DIRENTS_PER_BLOCK && blk[idx].name == "" && forall x :: 0 <= x < idx ==> blk[x].name != ""
    ensures h == EmptySlot && !hit ==> forall x :: 0 <= x < NUM_DIRENTS_PER_BLOCK ==> blk[x].name != ""
    ensures h == ByName && hit ==> !all && idx < NUM_DIRENTS_PER_BLOCK && Find(s, q) == base + idx
    ensures h != EmptySlot && !(h == ByName && hit) ==>
              && SeenBelow(s, if all then |s| else base + NUM_DIRENTS_PER_BLOCK, h, q, tested, ents)
              && (tested == links ==> all)
  {
    hide SeenBelow, LiveSet, LiveBelow, Find;
    hit, all, tested, idx, ents := false, false, tested0, 0, ents0;
    if h != EmptySlot && tested == links {
      SeenAll(s, base, h, q, tested, ents);
      return h == Listing, true, tested, idx, ents;
    }
    for x := 0 to NUM_DIRENTS_PER_BLOCK
      invariant !all
      invariant h != EmptySlot ==> SeenBelow(s, base + x, h, q, tested, ents) && tested != links
      invariant h == EmptySlot ==> forall y :: 0 <= y < x ==> blk[y].name != ""
    {
      var de := blk[x];
      assert s[base + x] == de;
      if h != EmptySlot && (de.name == "" || de.ino < ROOT_INO) {
        SeenDead(s, base + x, h, q, tested, ents);
        continue;
      }
      match h {
        case ByName =>
          if de.name == q && de.ino >= ROOT_INO {
            SeenHit(s, base + x, q, tested, ents);
            return true, false, tested, x, ents;
          }
          SeenLive(s, base + x, h, q, tested, ents);
        case EmptySlot =>
          if de.name == q {
            return true, false, tested, x, ents;
          }
        case Listing =>
          SeenLive(s, base + x, h, q, tested, ents);
          ents := ents + [de];
      }
      tested := tested + 1;
      if h != EmptySlot && tested == links {
        SeenAll(s, base + x + 1, h, q, tested, ents);
        return h == Listing, true, tested, idx, ents;
      }
    }
    hit := h == Listing;
  }

  /** Result of scanning part of a directory. */
  datatype Probe = At(ino: nat, blk: nat, idx: nat) | AllSearched | Unfinished | NotADir | Corrupt

  ghost predicate DirAt(dk: Disk, ds: nat, d: nat) {
    d in dk.itab && dk.itab[d].kind == Dir && DirOk(NodeOf(dk, ds, dk.itab[d]), ds)
  }

  ghost function SlotsAt(dk: Disk, ds: nat, d: nat): seq<Dentry> {
    if d in dk.itab then NodeOf(dk, ds, dk.itab[d]).slots else []
  }

  /** A directory read in well-formed state, or no directory at all. */
  ghost predicate Searchable(dk: Disk, ds: nat, d: nat) {
    d in dk.itab && dk.itab[d].kind == Dir ==> DirAt(dk, ds, d)
  }

  /** Slot j lies in the block and at the index the probe names. */
  ghost predicate PlacedAt(dk: Disk, ds: nat, d: nat, j: nat, blk: nat, idx: nat) {
    && d in dk.itab && j / NUM_DIRENTS_PER_BLOCK < MAX_FILE_BLKS
    && blk == IdAt(dk, ds, dk.itab[d], j / NUM_DIRENTS_PER_BLOCK) && idx == j % NUM_DIRENTS_PER_BLOCK
  }

  ghost predicate Answers(dk: Disk, ds: nat, d: nat, h: Handler, q: string, r: Probe, ents: seq<Dentry>) {
    var s := SlotsAt(dk, ds, d);
    && (r.At? ==> && h == ByName && Find(s, q) < |s| && r.ino == s[Find(s, q)].ino
                  && PlacedAt(dk, ds, d, Find(s, q), r.blk, r.idx))
    && (r.AllSearched? && h == ByName ==> Find(s, q) == |s|)
    && (r.AllSearched? && h == Listing ==> ents == Entries(s, |s|))
  }

  lemma BlockWindow(dk: Disk, ds: nat, d: nat, k: nat)
    requires DirAt(dk, ds, d) && k < MAX_FILE_BLKS
    ensures IdAt(dk, ds, dk.itab[d], k) >= ds <==> k * NUM_DIRENTS_PER_BLOCK < |SlotsAt(dk, ds, d)|
    ensures k * NUM_DIRENTS_PER_BLOCK < |SlotsAt(dk, ds, d)| ==>
              Window(SlotsAt(dk, ds, d), k * NUM_DIRENTS_PER_BLOCK, DentsAt(dk, IdAt(dk, ds, dk.itab[d], k)))
  {
    var n := dk.itab[d];
    assert OwnOf(dk, ds, n)[k] == IdAt(dk, ds, n, k);
    var s := SlotsAt(dk, ds, d);
    if k * NUM_DIRENTS_PER_BLOCK < |s| {
      forall x | 0 <= x < NUM_DIRENTS_PER_BLOCK
        ensures s[k * NUM_DIRENTS_PER_BLOCK + x] == DentsAt(dk, IdAt(dk, ds, n, k))[x]
      {
        var j := k * NUM_DIRENTS_PER_BLOCK + x;
        assert j / NUM_DIRENTS_PER_BLOCK == k && j % NUM_DIRENTS_PER_BLOCK == x;
      }
    }
  }

  lemma SlotPlace(dk: Disk, ds: nat, d: nat, k: nat, idx: nat)
    requires d in dk.itab && k < MAX_FILE_BLKS && idx < NUM_DIRENTS_PER_BLOCK
    ensures PlacedAt(dk, ds, d, k * NUM_DIRENTS_PER_BLOCK + idx, IdAt(dk, ds, dk.itab[d], k), idx)
  {
    var j := k * NUM_DIRENTS_PER_BLOCK + idx;
    assert j / NUM_DIRENTS_PER_BLOCK == k && j % NUM_DIRENTS_PER_BLOCK == idx;
  }

  lemma SearchedAll(dk: Disk, ds: nat, d: nat, h: Handler, q: string, tested: nat, ents: seq<Dentry>)
    requires h != EmptySlot
    requires SeenBelow(SlotsAt(dk, ds, d), |SlotsAt(dk, ds, d)|, h, q, tested, ents)
    ensures Answers(dk, ds, d, h, q, AllSearched, ents)
  {
  }

  /** A scan starts with nothing seen; the link count is the number of live slots. */
  lemma SeenNone(dk: Disk, ds: nat, d: nat, h: Handler, q: string)
    requires DirAt(dk, ds, d)
    ensures dk.itab[d].links == |LiveSet(SlotsAt(dk, ds, d))|
    ensures SeenBelow(SlotsAt(dk, ds, d), 0, h, q, 0, [])
  {
    assert LiveBelow(SlotsAt(dk, ds, d), 0) == {};
  }

  /** Live slots not seen yet are in blocks not seen yet. */
  lemma Remaining(dk: Disk, ds: nat, d: nat, h: Handler, q: string, tested: nat, ents: seq<Dentry>)
    requires DirAt(dk, ds, d) && tested != dk.itab[d].links
    requires SeenBelow(SlotsAt(dk, ds, d), NUM_DIRECT_BLOCKS * NUM_DIRENTS_PER_BLOCK, h, q, tested, ents)
    ensures |SlotsAt(dk, ds, d)| > NUM_DIRECT_BLOCKS * NUM_DIRENTS_PER_BLOCK
    ensures dk.itab[d].blks[NUM_DIRECT_BLOCKS] >= ds
  {
    var n := NodeOf(dk, ds, dk.itab[d]);
    assert n.own[IND] == dk.itab[d].blks[NUM_DIRECT_BLOCKS];
  }

  /** check_direct_blks. */
  method CheckDirectBlks(dk: Disk, ds: nat, d: nat, h: Handler, q: string)
    returns (r: Probe, tested: nat, ents: seq<Dentry>)
    requires h != EmptySlot && Searchable(dk, ds, d)
    ensures r.Corrupt? <==> d !in dk.itab
    ensures r.NotADir? <==> d in dk.itab && dk.itab[d].kind != Dir
    ensures Answers(dk, ds, d, h, q, r, ents)
    ensures r.Unfinished? ==>
              SeenBelow(SlotsAt(dk, ds, d), NUM_DIRECT_BLOCKS * NUM_DIRENTS_PER_BLOCK, h, q, tested, ents)
    ensures r.Unfinished? ==> tested != dk.itab[d].links
  {
    hide SeenBelow, SlotsAt, LiveSet, LiveBelow, Find, DirOk, NodeOf, DentsAt, Window;
    tested, ents := 0, [];
    if d !in dk.itab {
      return Corrupt, tested, ents;
    }
    var n := dk.itab[d];
    if n.kind != Dir {
      return NotADir, tested, ents;
    }
    ghost var s := SlotsAt(dk, ds, d);
    SeenNone(dk, ds, d, h, q);
    var k := 0;
    while k < NUM_DIRECT_BLOCKS
      invariant k <= NUM_DIRECT_BLOCKS
      invariant k * NUM_DIRENTS_PER_BLOCK <= |s| && SeenBelow(s, k * NUM_DIRENTS_PER_BLOCK, h, q, tested, ents)
      invariant k == NUM_DIRECT_BLOCKS ==> tested != n.links
    {
      BlockWindow(dk, ds, d, k);
      if n.blks[k] < ds {
        SearchedAll(dk, ds, d, h, q, tested, ents);
        return AllSearched, tested, ents;
      }
      var blk := DentsAt(dk, n.blks[k]);
      var hit, all, t, idx, e := CheckEachDentry(blk, n.links, h, q, tested, ents, s, k * NUM_DIRENTS_PER_BLOCK);
      if hit && h == ByName {
        SlotPlace(dk, ds, d, k, idx);
        return At(blk[idx].ino, n.blks[k], idx), t, e;
      }
      tested, ents := t, e;
      if all {
        SearchedAll(dk, ds, d, h, q, tested, ents);
        return AllSearched, tested, ents;
      }
      k := k + 1;
    }
    return Unfinished, tested, ents;
  }

  /** check_indirect_blks, for a directory whose direct blocks have been scanned. */
  method CheckIndirectBlks(dk: Disk, ds: nat, d: nat, h: Handler, q: string, tested0: nat, ents0: seq<Dentry>)
    returns (r: Probe, ents: seq<Dentry>)
    requires h != EmptySlot && DirAt(dk, ds, d) && tested0 != dk.itab[d].links
    requires SeenBelow(SlotsAt(dk, ds, d), NUM_DIRECT_BLOCKS * NUM_DIRENTS_PER_BLOCK, h, q, tested0, ents0)
    ensures r.At? || r.AllSearched?
    ensures Answers(dk, ds, d, h, q, r, ents)
  {
    hide SeenBelow, SlotsAt, LiveSet, LiveBelow, Find, DirOk, NodeOf, DentsAt, Window;
    var n := dk.itab[d];
    ghost var s := SlotsAt(dk, ds, d);
    SeenNone(dk, ds, d, h, q);
    Remaining(dk, ds, d, h, q, tested0, ents0);
    var ib := IdsAt(dk, n.blks[NUM_DIRECT_BLOCKS]);
    var tested := tested0;
    ents := ents0;
    var x := 0;
    while x < NUM_BLKS_PER_IB
      invariant x <= NUM_BLKS_PER_IB
      invariant (NUM_DIRECT_BLOCKS + x) * NUM_DIRENTS_PER_BLOCK <= |s|
      invariant SeenBelow(s, (NUM_DIRECT_BLOCKS + x) * NUM_DIRENTS_PER_BLOCK, h, q, tested, ents)
    {
      var k := NUM_DIRECT_BLOCKS + x;
      BlockWindow(dk, ds, d, k);
      if ib[x] < ds {
        SearchedAll(dk, ds, d, h, q, tested, ents);
        return AllSearched, ents;
      }
      var blk := DentsAt(dk, ib[x]);
      var hit, all, t, idx, e := CheckEachDentry(blk, n.links, h, q, tested, ents, s, k * NUM_DIRENTS_PER_BLOCK);
      if hit && h == ByName {
        SlotPlace(dk, ds, d, k, idx);
        return At(blk[idx].ino, ib[x], idx), e;
      }
      tested, ents := t, e;
      if all {
        SearchedAll(dk, ds, d, h, q, tested, ents);
        return AllSearched, ents;
      }
      x := x + 1;
    }
    FullDir(dk, ds, d);
    SearchedAll(dk, ds, d, h, q, tested, ents);
    return AllSearched, ents;
  }

  lemma FullDir(dk: Disk, ds: nat, d: nat)
    requires DirAt(dk, ds, d)
    ensures |SlotsAt(dk, ds, d)| <= MAX_FILE_BLKS * NUM_DIRENTS_PER_BLOCK
  {
  }

  /** A probe reports the result of a lookup, and where on disk the dentry is. */
  ghost predicate Reports(dk: Disk, ds: nat, l: Look, r: Probe) {
    match l
    case Found(i, d, j) => r.At? && r.ino == i && (j >= 2 ==> PlacedAt(dk, ds, d, j, r.blk, r.idx))
    case Missing => r.AllSearched?
    case NotDir => r.NotADir?
    case Broken => r.Corrupt?
  }

  lemma SearchableAll(dk: Disk, ds: nat, nb: nat, d: nat)
    requires NodesOk(NodesOf(dk, ds), ds, nb)
    ensures Searchable(dk, ds, d)
  {
    if d in dk.itab {
      assert d in NodesOf(dk, ds);
    }
  }

  lemma ReportsFound(dk: Disk, ds: nat, l: Look, r: Probe)
    requires Reports(dk, ds, l, r)
    ensures r.At? <==> l.Found?
    ensures r.At? ==> l.ino == r.ino
  {
  }

  lemma ReportsKinds(dk: Disk, ds: nat)
    ensures Reports(dk, ds, Missing, AllSearched)
    ensures Reports(dk, ds, Found(ROOT_INO, ROOT_INO, 0), At(ROOT_INO, ds, 0))
  {
  }

  /** One directory searched for one name: direct blocks, then indirect ones. */
  method SearchDir(dk: Disk, ds: nat, nb: nat, d: nat, q: string) returns (r: Probe)
    requires NodesOk(NodesOf(dk, ds), ds, nb)
    ensures Reports(dk, ds, Search(NodesOf(dk, ds), d, q), r)
  {
    hide SeenBelow, LiveSet, LiveBelow, Find, DirOk, NodeOf, NodesOk;
    SearchableAll(dk, ds, nb, d);
    assert d in dk.itab ==> NodesOf(dk, ds)[d].slots == SlotsAt(dk, ds, d);
    var tested, ents;
    r, tested, ents := CheckDirectBlks(dk, ds, d, ByName, q);
    if r.Unfinished? {
      r, ents := CheckIndirectBlks(dk, ds, d, ByName, q, tested, ents);
    }
  }

  /** string::find: the first '/' at or after start, |p| when there is none. */
  method NextSlash(p: Path, start: nat) returns (e: nat)
    requires start <= |p|
    ensures start <= e <= |p| && (e < |p| ==> p[e] == '/')
    ensures forall i :: start <= i < e ==> p[i] != '/'
  {
    e := start;
    while e < |p| && p[e] != '/'
      invariant start <= e <= |p|
      invariant forall i :: start <= i < e ==> p[i] != '/'
    {
      e := e + 1;
    }
  }

  /** A walk that fails at some component fails in the same way as a whole. */
  lemma {:induction false} WalkFails(nodes: Nodes, p: Path, e: nat)
    requires Absolute(p) && 1 <= e <= |p| && (e < |p| ==> p[e] == '/')
    requires !Walk(nodes, p[..e]).Found?
    ensures Walk(nodes, p) == Walk(nodes, p[..e])
    decreases |p|
  {
    if e == |p| {
      assert p[..e] == p;
    } else {
      var k := LastSlash(p);
      assert e <= k;
      if e < k {
        assert p[..k][..e] == p[..e];
        WalkFails(nodes, p[..k], e);
      }
    }
  }

  /** The walk has arrived at directory cur, just before position start. */
  ghost predicate Arrived(nodes: Nodes, p: Path, start: nat, cur: nat) {
    && Absolute(p) && 1 <= start <= |p| && p[start - 1] == '/'
    && if start == 1 then cur == ROOT_INO
       else Walk(nodes, p[..start - 1]).Found? && Walk(nodes, p[..start - 1]).ino == cur
  }

  lemma WalkStep(nodes: Nodes, p: Path, start: nat, e: nat, cur: nat)
    requires Arrived(nodes, p, start, cur) && start <= e <= |p|
    requires forall i :: start <= i < e ==> p[i] != '/'
    ensures Walk(nodes, p[..e]) == Search(nodes, cur, p[..e])
    ensures e < |p| && p[e] == '/' && Walk(nodes, p[..e]).Found? ==> Arrived(nodes, p, e + 1, Walk(nodes, p[..e]).ino)
  {
    var q := p[..e];
    assert LastSlash(q) == start - 1;
    assert q[..start - 1] == p[..start - 1];
  }

  /** One component of the path: from the directory reached so far to the next '/' or the end. */
  method NextComponent(dk: Disk, ds: nat, nb: nat, p: Path, start: nat, cur: nat) returns (r: Probe, e: nat)
    requires NodesOk(NodesOf(dk, ds), ds, nb) && Absolute(p) && 1 <= start <= |p|
    requires Arrived(NodesOf(dk, ds), p, start, cur)
    ensures start <= e <= |p|
    ensures !r.At? || e == |p| ==> Reports(dk, ds, Walk(NodesOf(dk, ds), p), r)
    ensures r.At? && e < |p| ==> Arrived(NodesOf(dk, ds), p, e + 1, r.ino)
  {
    hide NodesOk, NodesOf, Reports, Search, Walk, Arrived;
    ghost var nodes := NodesOf(dk, ds);
    e := NextSlash(p, start);
    var q := p[..e];
    WalkStep(nodes, p, start, e, cur);
    r := SearchDir(dk, ds, nb, cur, q);
    ReportsFound(dk, ds, Search(nodes, cur, q), r);
    if !r.At? {
      WalkFails(nodes, p, e);
    } else if e == |p| {
      assert q == p;
    }
  }

  /** get_de: the forward walk over the components of p. */
  method Locate(dk: Disk, ds: nat, nb: nat, p: Path) returns (r: Probe)
    requires NodesOk(NodesOf(dk, ds), ds, nb)
    ensures Reports(dk, ds, GetDe(NodesOf(dk, ds), p), r)
  {
    hide NodesOk, NodesOf, Reports, Search, Walk, Arrived;
    ReportsKinds(dk, ds);
    if |p| == 0 || p[0] != '/' {
      return AllSearched;
    }
    if p == "/" {
      return At(ROOT_INO, ds, 0);
    }
    ghost var nodes := NodesOf(dk, ds);
    var cur, start, more := ROOT_INO, 1, true;
    Starts(nodes, p);
    r := Unfinished;
    while more
      invariant 1 <= start <= |p|
      invariant more ==> Arrived(nodes, p, start, cur)
      invariant !more ==> Reports(dk, ds, Walk(nodes, p), r)
      decreases more, |p| - start
    {
      var e;
      r, e := NextComponent(dk, ds, nb, p, start, cur);
      if !r.At? {
        return;
      }
      cur := r.ino;
      if e == |p| {
        more := false;
      } else {
        start := e + 1;
      }
    }
  }


  lemma Starts(nodes: Nodes, p: Path)
    requires |p| > 0 && p[0] == '/'
    ensures Absolute(p) && Arrived(nodes, p, 1, ROOT_INO)
  {
  }

  /** bfs_readdir: every live entry of the directory, once each, in slot order. */
  method Readdir(dk: Disk, ds: nat, nb: nat, d: nat) returns (r: Option<seq<Dentry>>)
    requires NodesOk(NodesOf(dk, ds), ds, nb)
    ensures r.Some? <==> d in dk.itab && dk.itab[d].kind == Dir
    ensures r.Some? ==> r.value == Entries(NodesOf(dk, ds)[d].slots, |NodesOf(dk, ds)[d].slots|)
  {
    hide SeenBelow, LiveSet, LiveBelow, Find, DirOk, NodeOf, NodesOk;
    SearchableAll(dk, ds, nb, d);
    assert d in dk.itab ==> NodesOf(dk, ds)[d].slots == SlotsAt(dk, ds, d);
    var r0, tested, ents := CheckDirectBlks(dk, ds, d, Listing, "");
    if r0.Unfinished? {
      r0, ents := CheckIndirectBlks(dk, ds, d, Listing, "", tested, ents);
    }
    r := if r0.AllSearched? then Some(ents) else None;
  }
}
