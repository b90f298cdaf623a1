/** The volume mkfs leaves: a root directory with nothing in it. */
module NewVolumes {
  import opened Layout
  import opened Paths
  import opened Volumes
  import opened Invariants
  import opened Growth
  import opened CreateOps

  function NewBits(): Bits {
    seq(NUM_IBITMAP_BLOCKS * BLK_SZ_BITS, i => i < FIRST_UNRESERVED_INO)
  }

  function NewVolume(ds: nat, nb: nat): Volume
    requires ds < nb
  {
    Volume(ds, nb, nb - ds, ds + 1, NUM_INODES - FIRST_UNRESERVED_INO, NewBits(),
           map[ROOT_INO := DotDir(1, ROOT_INO, ROOT_INO, ds)], map[], START_FD)
  }

  lemma BitsMarked()
    ensures Marked(NewBits(), NUM_INODES - FIRST_UNRESERVED_INO, {ROOT_INO})
  {
    BitsBelow(NewBits(), FIRST_UNRESERVED_INO, NUM_INODES);
  }

  lemma BitsBelow(bits: Bits, m: nat, n: nat)
    requires m <= n <= |bits| && forall i :: 0 <= i < |bits| ==> (bits[i] <==> i < m)
    ensures |SetBits(bits, n)| == m
  {
    assert SetBits(bits, n) == Ids(0, m);
  }

  lemma NewInv(ds: nat, nb: nat)
    requires 1 <= ds < nb
    ensures Inv(NewVolume(ds, nb))
  {
    hide Sound;
    NewSound(ds, nb);
    HandlesNone(map[], ROOT_INO);
  }

  lemma NewSound(ds: nat, nb: nat)
    requires 1 <= ds < nb
    ensures Sound(NewVolume(ds, nb))
  {
    hide Marked, DirOk;
    var nodes := NewVolume(ds, nb).nodes;
    NewDirOk(nodes[ROOT_INO], ds, ROOT_INO, ROOT_INO);
    BitsMarked();
    assert nodes.Keys == {ROOT_INO};
    assert Held(nodes, ds, ds + 1) == {};
  }

  /** Nothing but "/" resolves. */
  lemma NothingNamed(ds: nat, nb: nat, p: Path)
    requires ds < nb
    ensures Resolve(NewVolume(ds, nb).nodes, p) == if p == "/" then Some(ROOT_INO) else None
  {
    if Absolute(p) && p != "/" {
      WalkNothing(NewVolume(ds, nb).nodes, ds, p);
    }
  }

  lemma {:induction false} WalkNothing(nodes: Nodes, ds: nat, p: Path)
    requires nodes == map[ROOT_INO := DotDir(1, ROOT_INO, ROOT_INO, ds)]
    requires Absolute(p)
    ensures !Walk(nodes, p).Found?
    decreases |p|
  {
    if LastSlash(p) > 0 {
      WalkNothing(nodes, ds, p[..LastSlash(p)]);
    }
  }
}
