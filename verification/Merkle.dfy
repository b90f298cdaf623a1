/**
 The integrity tree over the blocks: a complete binary tree in heap order whose leaves are the
 blocks' MACs and whose inner nodes are keyed hashes of their two children.
 */
module Merkle {

  ghost predicate Injective<D(!new)>(hash: (D, D) -> D) {
    forall a, b, c, d :: hash(a, b) == hash(c, d) ==> a == c && b == d
  }

  function Pow2(n: nat): (r: nat)
    ensures r >= 1
  {
    if n == 0 then 1 else 2 * Pow2(n - 1)
  }

  /** Index of the leaf for a block. */
  function Leaf(height: nat, vbid: nat): nat {
    vbid + Pow2(height) - 1
  }

  /** The parent as the code computes it, for a right and for a left child. */
  function Parent(i: nat): (p: nat)
    requires i > 0
    ensures p < i && (i == 2 * p + 1 || i == 2 * p + 2)
  {
    if i % 2 == 0 then (i - 2) / 2 else (i - 1) / 2
  }

  /** j is a proper ancestor of i. */
  predicate Above(j: nat, i: nat) {
    i > 0 && (Parent(i) == j || Above(j, Parent(i)))
  }

  function PathUp(i: nat): (r: seq<nat>) {
    if i == 0 then [] else [Parent(i)] + PathUp(Parent(i))
  }

  predicate IsTree<D>(t: seq<D>, height: nat) {
    |t| == 2 * Pow2(height) - 1
  }

  /** Inner node j is the hash of its children. */
  predicate WellHashed<D(==)>(t: seq<D>, hash: (D, D) -> D, j: nat)
    requires 2 * j + 2 < |t|
  {
    t[j] == hash(t[2 * j + 1], t[2 * j + 2])
  }

  /** Recomputing every proper ancestor of node i, from the bottom up. */
  function Rehash<D>(t: seq<D>, hash: (D, D) -> D, i: nat): (r: seq<D>)
    requires i < |t| && |t| % 2 == 1
    ensures |r| == |t|
    decreases i
  {
    if i == 0 then t
    else var p := Parent(i); Rehash(t[p := hash(t[2 * p + 1], t[2 * p + 2])], hash, p)
  }

  /** The same walk, begun at the first ancestor p. */
  function Climb<D>(t: seq<D>, hash: (D, D) -> D, p: nat): (r: seq<D>)
    requires 2 * p + 2 < |t| && |t| % 2 == 1
  {
    Rehash(t[p := hash(t[2 * p + 1], t[2 * p + 2])], hash, p)
  }

  lemma ClimbStep<D>(t: seq<D>, u: seq<D>, hash: (D, D) -> D, p: nat)
    requires 2 * p + 2 < |t| && |t| % 2 == 1 && u == t[p := hash(t[2 * p + 1], t[2 * p + 2])]
    ensures Climb(t, hash, p) == if p == 0 then u else Climb(u, hash, Parent(p))
  {
  }

  lemma RehashClimbs<D>(t: seq<D>, hash: (D, D) -> D, i: nat)
    requires 0 < i < |t| && |t| % 2 == 1
    ensures Rehash(t, hash, i) == Climb(t, hash, Parent(i))
  {
  }

  /** The walk from a leaf visits exactly `height` ancestors and ends at the root. */
  lemma {:induction false} PathLength(height: nat, i: nat)
    requires Pow2(height) - 1 <= i < 2 * Pow2(height) - 1
    ensures |PathUp(i)| == height && (height > 0 ==> PathUp(i)[height - 1] == 0)
    ensures forall k :: 0 <= k < height ==> Above(PathUp(i)[k], i)
  {
    if height > 0 {
      PathLength(height - 1, Parent(i));
    }
  }

  lemma {:induction false} AboveLess(j: nat, i: nat)
    requires Above(j, i)
    ensures j < i
    decreases i
  {
    if Parent(i) != j { AboveLess(j, Parent(i)); }
  }

  /** Rehashing changes ancestors only ... */
  lemma {:induction false} RehashFrame<D>(t: seq<D>, hash: (D, D) -> D, i: nat, j: nat)
    requires i < |t| && |t| % 2 == 1 && j < |t| && !Above(j, i)
    ensures Rehash(t, hash, i)[j] == t[j]
    decreases i
  {
    if i > 0 {
      var p := Parent(i);
      RehashFrame(t[p := hash(t[2 * p + 1], t[2 * p + 2])], hash, p, j);
    }
  }

  /** ... and makes each of them well hashed. */
  lemma {:induction false} RehashHashed<D>(t: seq<D>, hash: (D, D) -> D, i: nat, j: nat)
    requires i < |t| && |t| % 2 == 1 && Above(j, i) && 2 * j + 2 < |t|
    ensures WellHashed(Rehash(t, hash, i), hash, j)
    decreases i
  {
    var p := Parent(i);
    var u := t[p := hash(t[2 * p + 1], t[2 * p + 2])];
    if j == p {
      NotAbove(p, p);
      NotAbove(2 * p + 1, p);
      NotAbove(2 * p + 2, p);
      RehashFrame(u, hash, p, p);
      RehashFrame(u, hash, p, 2 * p + 1);
      RehashFrame(u, hash, p, 2 * p + 2);
    } else {
      RehashHashed(u, hash, p, j);
    }
  }

  lemma NotAbove(k: nat, i: nat)
    requires k >= i
    ensures !Above(k, i)
  {
    if Above(k, i) { AboveLess(k, i); }
  }

  /** Replacing one leaf and rehashing its path: node j is well hashed afterwards exactly when it
      is an ancestor of the leaf or was well hashed before. */
  lemma WriteKeeps<D>(t: seq<D>, hash: (D, D) -> D, height: nat, vbid: nat, mac: D, j: nat)
    requires IsTree(t, height) && vbid < Pow2(height) && j < Pow2(height) - 1
    ensures var i := Leaf(height, vbid);
            WellHashed(Rehash(t[i := mac], hash, i), hash, j) <==> Above(j, i) || WellHashed(t, hash, j)
  {
    var i := Leaf(height, vbid);
    var u := t[i := mac];
    if Above(j, i) {
      RehashHashed(u, hash, i, j);
    } else {
      ChildApart(j, 2 * j + 1, i);
      ChildApart(j, 2 * j + 2, i);
      RehashFrame(u, hash, i, j);
      RehashFrame(u, hash, i, 2 * j + 1);
      RehashFrame(u, hash, i, 2 * j + 2);
    }
  }

  /** Ancestors of an ancestor. */
  lemma {:induction false} AboveStep(j: nat, k: nat, i: nat)
    requires k > 0 && Parent(k) == j && Above(k, i)
    ensures Above(j, i)
    decreases i
  {
    if Parent(i) != k { AboveStep(j, k, Parent(i)); }
  }

  /** A node off the path has both its children off the path. */
  lemma ChildApart(j: nat, k: nat, i: nat)
    requires (k == 2 * j + 1 || k == 2 * j + 2) && !Above(j, i)
    ensures k != i && !Above(k, i)
  {
    assert Parent(k) == j;
    if Above(k, i) { AboveStep(j, k, i); }
  }

  // ---- checking a MAC that was read -------------------------------------------------

  /** The value of i's parent if node i held x. */
  function ParentWith<D>(t: seq<D>, hash: (D, D) -> D, i: nat, x: D): D
    requires 0 < i < |t| && |t| % 2 == 1
  {
    if i % 2 == 1 then hash(x, t[i + 1]) else hash(t[i - 1], x)
  }

  /** The root recomputed all the way up, if node i held x. */
  function RootWith<D>(t: seq<D>, hash: (D, D) -> D, i: nat, x: D): D
    requires i < |t| && |t| % 2 == 1
    decreases i
  {
    if i == 0 then x else RootWith(t, hash, Parent(i), ParentWith(t, hash, i, x))
  }

  /** The two ways of recomputing the root agree. */
  lemma {:induction false} RehashRoot<D>(t: seq<D>, s: seq<D>, hash: (D, D) -> D, i: nat)
    requires |s| == |t| && i < |t| && |t| % 2 == 1
    requires forall j :: 0 <= j <= i + 1 && j < |t| && j != i ==> s[j] == t[j]
    ensures Rehash(s, hash, i)[0] == RootWith(t, hash, i, s[i])
    decreases i
  {
    if i > 0 {
      hide Rehash, RootWith;
      var p := Parent(i);
      var x := hash(s[2 * p + 1], s[2 * p + 2]);
      OneUp(s, hash, i, x);
      assert x == ParentWith(t, hash, i, s[i]);
      assert RootWith(t, hash, i, s[i]) == RootWith(t, hash, p, x) by { RootUp(t, hash, i, s[i]); }
      if p == 0 {
        AtRoot(s[0 := x], t, hash, x);
      } else {
        RehashRoot(t, s[p := x], hash, p);
      }
    }
  }

  lemma OneUp<D>(s: seq<D>, hash: (D, D) -> D, i: nat, x: D)
    requires 0 < i < |s| && |s| % 2 == 1
    requires var p := Parent(i);
             x == hash(s[2 * p + 1], s[2 * p + 2])
    ensures Rehash(s, hash, i) == Rehash(s[Parent(i) := x], hash, Parent(i))
  {
  }

  lemma RootUp<D>(t: seq<D>, hash: (D, D) -> D, i: nat, x: D)
    requires 0 < i < |t| && |t| % 2 == 1
    ensures RootWith(t, hash, i, x) == RootWith(t, hash, Parent(i), ParentWith(t, hash, i, x))
  {
  }

  lemma AtRoot<D>(s: seq<D>, t: seq<D>, hash: (D, D) -> D, x: D)
    requires |s| == |t| && |t| % 2 == 1
    ensures Rehash(s, hash, 0) == s && RootWith(t, hash, 0, x) == x
  {
  }

  /** In a well-formed tree, checking the immediate parent accepts exactly when recomputing the root
      would, and exactly when the MAC is the stored one. */
  lemma {:induction false} EarlyCheck<D(!new)>(t: seq<D>, hash: (D, D) -> D, i: nat, x: D)
    requires Injective(hash) && 0 < i < |t| && |t| % 2 == 1
    requires forall j :: 0 <= j && 2 * j + 2 < |t| && Above(j, i) ==> WellHashed(t, hash, j)
    ensures ParentWith(t, hash, i, x) == t[Parent(i)] <==> x == t[i]
    ensures RootWith(t, hash, i, x) == t[0] <==> x == t[i]
    decreases i
  {
    var p := Parent(i);
    assert WellHashed(t, hash, p);
    if p > 0 {
      EarlyCheck(t, hash, p, ParentWith(t, hash, i, x));
    }
  }

  /** A check that accepts leaves every hash of a well-formed tree as it was. */
  lemma CheckKeeps<D(!new)>(t: seq<D>, hash: (D, D) -> D, i: nat, x: D)
    requires Injective(hash) && 0 < i < |t| && |t| % 2 == 1
    requires forall j :: 0 <= j && 2 * j + 2 < |t| && Above(j, i) ==> WellHashed(t, hash, j)
    ensures ParentWith(t, hash, i, x) == t[Parent(i)] ==> t[i := x] == t
  {
    EarlyCheck(t, hash, i, x);
  }

  /** Two well-formed trees with the same root are the same tree: the root vouches for every MAC. */
  lemma RootBinds<D(!new)>(t: seq<D>, u: seq<D>, hash: (D, D) -> D, height: nat)
    requires Injective(hash) && IsTree(t, height) && IsTree(u, height) && t[0] == u[0]
    requires forall j :: 0 <= j < Pow2(height) - 1 ==> WellHashed(t, hash, j) && WellHashed(u, hash, j)
    ensures t == u
  {
    forall j | 0 <= j < |t| ensures t[j] == u[j] {
      NodeBound(t, u, hash, height, j);
    }
  }

  lemma {:induction false} NodeBound<D(!new)>(t: seq<D>, u: seq<D>, hash: (D, D) -> D, height: nat, j: nat)
    requires Injective(hash) && IsTree(t, height) && IsTree(u, height) && t[0] == u[0] && j < |t|
    requires forall k :: 0 <= k < Pow2(height) - 1 ==> WellHashed(t, hash, k) && WellHashed(u, hash, k)
    ensures t[j] == u[j]
  {
    hide Injective, Pow2;
    if j > 0 {
      var p := Parent(j);
      NodeBound(t, u, hash, height, p);
      assert WellHashed(t, hash, p) && WellHashed(u, hash, p);
      Separates(hash, t[2 * p + 1], t[2 * p + 2], u[2 * p + 1], u[2 * p + 2]);
    }
  }

  lemma Separates<D(!new)>(hash: (D, D) -> D, a: D, b: D, c: D, d: D)
    requires Injective(hash) && hash(a, b) == hash(c, d)
    ensures a == c && b == d
  {
  }

  /** Two well-formed trees with the same MACs are the same tree. */
  lemma {:induction false} LeavesBind<D>(t: seq<D>, u: seq<D>, hash: (D, D) -> D, height: nat, j: nat)
    requires IsTree(t, height) && IsTree(u, height) && j < |t|
    requires forall j :: 0 <= j < Pow2(height) - 1 ==> WellHashed(t, hash, j) && WellHashed(u, hash, j)
    requires forall v :: 0 <= v < Pow2(height) ==> t[Leaf(height, v)] == u[Leaf(height, v)]
    ensures t[j] == u[j]
    decreases |t| - j
  {
    if j < Pow2(height) - 1 {
      LeavesBind(t, u, hash, height, 2 * j + 1);
      LeavesBind(t, u, hash, height, 2 * j + 2);
      assert WellHashed(t, hash, j) && WellHashed(u, hash, j);
    } else {
      assert Leaf(height, j - (Pow2(height) - 1)) == j;
    }
  }

  /** Mounting: the root computed from the blocks' MACs is the one saved by a well-formed tree if and only if
      every block has the MAC it had when the root was saved. */
  lemma MountBindsIff<D(!new)>(saved: seq<D>, built: seq<D>, hash: (D, D) -> D, height: nat)
    requires Injective(hash) && IsTree(saved, height) && IsTree(built, height)
    requires forall j :: 0 <= j < Pow2(height) - 1 ==> WellHashed(saved, hash, j) && WellHashed(built, hash, j)
    ensures built[0] == saved[0] <==>
            forall v :: 0 <= v < Pow2(height) ==> built[Leaf(height, v)] == saved[Leaf(height, v)]
  {
    if built[0] == saved[0] {
      RootBinds(saved, built, hash, height);
    } else if forall v :: 0 <= v < Pow2(height) ==> built[Leaf(height, v)] == saved[Leaf(height, v)] {
      LeavesBind(built, saved, hash, height, 0);
    }
  }

  // ---- whole runs -------------------------------------------------------------------

  datatype Event<D> = Wrote(vbid: nat, mac: D)

  predicate Fit<D>(run: seq<Event<D>>, height: nat) {
    forall k :: 0 <= k < |run| ==> run[k].vbid < Pow2(height)
  }

  function Step<D>(t: seq<D>, hash: (D, D) -> D, height: nat, e: Event<D>): (r: seq<D>)
    requires IsTree(t, height) && e.vbid < Pow2(height)
    ensures IsTree(r, height)
  {
    var i := Leaf(height, e.vbid);
    Rehash(t[i := e.mac], hash, i)
  }

  function After<D>(t: seq<D>, hash: (D, D) -> D, height: nat, run: seq<Event<D>>): (r: seq<D>)
    requires IsTree(t, height) && Fit(run, height)
    ensures IsTree(r, height)
  {
    if run == [] then t
    else
      var n := |run| - 1;
      Step(After(t, hash, height, run[..n]), hash, height, run[n])
  }

  /** The MAC written to a block last, or the one it started with. */
  function Last<D>(run: seq<Event<D>>, vbid: nat, initial: D): D {
    if run == [] then initial
    else if run[|run| - 1].vbid == vbid then run[|run| - 1].mac
    else Last(run[..|run| - 1], vbid, initial)
  }

  predicate Touches<D>(run: seq<Event<D>>, height: nat, j: nat) {
    exists k :: 0 <= k < |run| && Above(j, Leaf(height, run[k].vbid))
  }

  lemma {:induction false} AboveInner(height: nat, j: nat, i: nat)
    requires Above(j, i) && i < 2 * Pow2(height) - 1
    ensures j < Pow2(height) - 1
    decreases i
  {
    if Parent(i) != j { AboveInner(height, j, Parent(i)); }
  }

  /** After any run of writes each leaf holds the MAC written last. */
  lemma {:induction false} LeavesCurrent<D>(t: seq<D>, hash: (D, D) -> D, height: nat, run: seq<Event<D>>, vbid: nat)
    requires IsTree(t, height) && Fit(run, height) && vbid < Pow2(height)
    ensures After(t, hash, height, run)[Leaf(height, vbid)] == Last(run, vbid, t[Leaf(height, vbid)])
  {
    hide Rehash, Above, Pow2;
    if run != [] {
      var n := |run| - 1;
      LeavesCurrent(t, hash, height, run[..n], vbid);
      var i, l := Leaf(height, run[n].vbid), Leaf(height, vbid);
      if Above(l, i) {
        AboveInner(height, l, i);
        assert false;
      }
      RehashFrame(After(t, hash, height, run[..n])[i := run[n].mac], hash, i, l);
    }
  }

  /** A node is well hashed after a run exactly when it was before or lies above a block written. */
  lemma {:induction false} RunKeeps<D>(t: seq<D>, hash: (D, D) -> D, height: nat, run: seq<Event<D>>, j: nat)
    requires IsTree(t, height) && Fit(run, height) && j < Pow2(height) - 1
    ensures WellHashed(After(t, hash, height, run), hash, j) <==> WellHashed(t, hash, j) || Touches(run, height, j)
  {
    if run != [] {
      var n := |run| - 1;
      RunKeeps(t, hash, height, run[..n], j);
      WriteKeeps(After(t, hash, height, run[..n]), hash, height, run[n].vbid, run[n].mac, j);
      assert Touches(run, height, j) <==> Touches(run[..n], height, j) || Above(j, Leaf(height, run[n].vbid)) by {
        if Touches(run[..n], height, j) {
          var k :| 0 <= k < n && Above(j, Leaf(height, run[..n][k].vbid));
          assert run[k] == run[..n][k];
        }
        if Touches(run, height, j) && !Above(j, Leaf(height, run[n].vbid)) {
          var k :| 0 <= k < |run| && Above(j, Leaf(height, run[k].vbid));
          assert run[..n][k] == run[k];
        }
      }
    }
  }

  /** From whatever tree a run starts, a block written during it is accepted on reading exactly with
      the MAC written last: stale and forged MACs are turned down, by the early check as by the full one. */
  lemma ReadsFresh<D(!new)>(t: seq<D>, hash: (D, D) -> D, height: nat, run: seq<Event<D>>, vbid: nat, x: D)
    requires Injective(hash) && height >= 1 && IsTree(t, height) && Fit(run, height) && vbid < Pow2(height)
    requires exists k :: 0 <= k < |run| && run[k].vbid == vbid
    ensures var u, i := After(t, hash, height, run), Leaf(height, vbid);
            && i > 0
            && (ParentWith(u, hash, i, x) == u[Parent(i)] <==> x == Last(run, vbid, t[i]))
            && (RootWith(u, hash, i, x) == u[0] <==> x == Last(run, vbid, t[i]))
  {
    hide After, RootWith, ParentWith, Last, Above, Injective;
    var u, i := After(t, hash, height, run), Leaf(height, vbid);
    LeavesCurrent(t, hash, height, run, vbid);
    forall j | 0 <= j && 2 * j + 2 < |u| && Above(j, i) ensures WellHashed(u, hash, j) {
      var k :| 0 <= k < |run| && run[k].vbid == vbid;
      assert Touches(run, height, j);
      RunKeeps(t, hash, height, run, j);
    }
    EarlyCheck(u, hash, i, x);
  }

  // ---- the tree in memory -----------------------------------------------------------

  class MerkleTree<D(==)> {
    const height: nat
    const nodes: array<D>
    const hash: (D, D) -> D

    ghost predicate Valid()
      reads this, nodes
    {
      height >= 1 && IsTree(nodes[..], height)
    }

    /** init_merkle_tree, last node to first: a hash already in memory is kept; of the others a leaf gets
        its block's MAC and an inner node the hash of its children, or all get `zero` in the initial call. */
    constructor (height: nat, hash: (D, D) -> D, mac: nat -> D, kept: map<nat, D>, initial: bool, zero: D)
      requires height >= 1
      ensures Valid() && fresh(nodes) && this.height == height && this.hash == hash
      ensures forall i :: i in kept && i < nodes.Length ==> nodes[i] == kept[i]
      ensures initial ==> forall i :: 0 <= i < nodes.Length && i !in kept ==> nodes[i] == zero
      ensures !initial ==>
                && (forall v :: 0 <= v < Pow2(height) && Leaf(height, v) !in kept ==> nodes[Leaf(height, v)] == mac(v))
                && (forall j :: 0 <= j < Pow2(height) - 1 && j !in kept ==> WellHashed(nodes[..], hash, j))
    {
      hide Pow2;
      this.height, this.hash := height, hash;
      nodes := new D[2 * Pow2(height) - 1](i requires 0 <= i => zero);
      new;
      Fill(Pow2(height) - 1, mac, kept, initial, zero);
    }

    method Fill(inner: nat, mac: nat -> D, kept: map<nat, D>, initial: bool, zero: D)
      requires nodes.Length == 2 * inner + 1 && forall k :: 0 <= k < nodes.Length ==> nodes[k] == zero
      modifies nodes
      ensures forall i :: i in kept && i < nodes.Length ==> nodes[i] == kept[i]
      ensures initial ==> forall i :: 0 <= i < nodes.Length && i !in kept ==> nodes[i] == zero
      ensures !initial ==> forall i :: inner <= i < nodes.Length && i !in kept ==> nodes[i] == mac(i - inner)
      ensures !initial ==> forall j :: 0 <= j < inner && j !in kept ==>
                                         nodes[j] == hash(nodes[2 * j + 1], nodes[2 * j + 2])
    {
      var i := 2 * inner;
      while i >= 0
        invariant -1 <= i <= 2 * inner
        invariant forall k :: k in kept && i < k < nodes.Length ==> nodes[k] == kept[k]
        invariant forall k :: 0 <= k < nodes.Length && k !in kept && initial ==> nodes[k] == zero
        invariant !initial ==> forall k :: inner <= k < nodes.Length && k > i && k !in kept ==>
                                             nodes[k] == mac(k - inner)
        invariant !initial ==> forall j :: i < j < inner && j !in kept ==>
                                             nodes[j] == hash(nodes[2 * j + 1], nodes[2 * j + 2])
      {
        if i in kept {
          nodes[i] := kept[i];
        } else if !initial {
          nodes[i] := if i >= inner then mac(i - inner) else hash(nodes[2 * i + 1], nodes[2 * i + 2]);
        }
        i := i - 1;
      }
    }

    /** write_blk: the new MAC, then every ancestor up to the root. */
    method WriteBlk(vbid: nat, mac: D)
      requires Valid() && vbid < Pow2(height)
      modifies nodes
      ensures nodes[..] == Step(old(nodes[..]), hash, height, Wrote(vbid, mac))
    {
      hide Climb, Rehash;
      var i := Leaf(height, vbid);
      nodes[i] := mac;
      assert nodes[..] == old(nodes[..])[i := mac];
      RehashClimbs(nodes[..], hash, i);
      HashUp(Parent(i));
    }

    /** The loop from the first ancestor p to the root. */
    method HashUp(p: nat)
      requires 2 * p + 2 < nodes.Length && nodes.Length % 2 == 1
      modifies nodes
      ensures nodes[..] == Climb(old(nodes[..]), hash, p)
    {
      hide Climb;
      ghost var want := Climb(nodes[..], hash, p);
      var i: nat := p;
      while true
        invariant 2 * i + 2 < nodes.Length && Climb(nodes[..], hash, i) == want
        decreases i
      {
        ghost var before := nodes[..];
        nodes[i] := hash(nodes[2 * i + 1], nodes[2 * i + 2]);
        assert nodes[..] == before[i := hash(before[2 * i + 1], before[2 * i + 2])];
        ClimbStep(before, nodes[..], hash, i);
        if i == 0 {
          break;
        }
        i := Parent(i);
      }
    }

    /** read_blk: the MAC that was read is put in place and its parent recomputed; on a mismatch both
        old values are put back. */
    method CheckBlk(vbid: nat, mac: D) returns (accepted: bool)
      requires Valid() && vbid < Pow2(height)
      modifies nodes
      ensures var t, i := old(nodes[..]), Leaf(height, vbid);
              && i > 0
              && (accepted <==> ParentWith(t, hash, i, mac) == t[Parent(i)])
              && nodes[..] == if accepted then t[i := mac] else t
    {
      var i := Leaf(height, vbid);
      var ih := nodes[i];
      nodes[i] := mac;
      var p := if i % 2 == 0 then (i - 2) / 2 else (i - 1) / 2;
      var currPar := nodes[p];
      nodes[p] := hash(nodes[2 * p + 1], nodes[2 * p + 2]);
      accepted := nodes[p] == currPar;
      if !accepted {
        nodes[p] := currPar;
        nodes[i] := ih;
      }
    }
  }

  /** init_merkle_tree with nothing in memory, and its last step. The initial call takes any disk; any other
      call succeeds if and only if every block has the MAC it had in the tree `saved` whose root was stored. */
  method InitMerkleTree<D(==, !new)>(height: nat, hash: (D, D) -> D, mac: nat -> D, initial: bool, zero: D, root: D,
                                     ghost saved: seq<D>) returns (t: MerkleTree<D>, ok: bool)
    requires height >= 1 && Injective(hash) && IsTree(saved, height) && root == saved[0]
    requires forall j :: 0 <= j < Pow2(height) - 1 ==> WellHashed(saved, hash, j)
    ensures t.Valid() && fresh(t) && fresh(t.nodes) && t.height == height && t.hash == hash
    ensures initial ==> ok && forall i :: 0 <= i < t.nodes.Length ==> t.nodes[i] == zero
    ensures !initial ==> (ok <==> forall v :: 0 <= v < Pow2(height) ==> mac(v) == saved[Leaf(height, v)])
    ensures !initial && ok ==> t.nodes[..] == saved
  {
    hide Pow2, Injective;
    t := new MerkleTree(height, hash, mac, map[], initial, zero);
    if initial {
      return t, true;
    }
    ghost var built := t.nodes[..];
    MountBindsIff(saved, built, hash, height);
    assert forall v :: 0 <= v < Pow2(height) ==> built[Leaf(height, v)] == mac(v);
    ok := t.nodes[0] == root;
    if ok {
      RootBinds(saved, built, hash, height);
    }
  }
}
