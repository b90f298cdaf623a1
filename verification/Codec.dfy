/** The on-disk records: little-endian fields laid end to end, dentries padded to their slot. */
module Codec {
  import opened Layout

  // ---- integers ---------------------------------------------------------------------

  function Pow256(w: nat): (r: nat)
    ensures r >= 1
  {
    if w == 0 then 1 else 256 * Pow256(w - 1)
  }

  function Le(w: nat, v: nat): (s: seq<Byte>)
    ensures |s| == w
  {
    if w == 0 then [] else [v % 256] + Le(w - 1, v / 256)
  }

  function FromLe(s: seq<Byte>): nat {
    if s == [] then 0 else s[0] + 256 * FromLe(s[1..])
  }

  /** An integer survives exactly when it fits its field. */
  lemma {:induction false} LeRoundTrip(w: nat, v: nat)
    ensures FromLe(Le(w, v)) == v % Pow256(w)
    ensures FromLe(Le(w, v)) == v <==> v < Pow256(w)
  {
    if w == 0 {
    } else {
      LeRoundTrip(w - 1, v / 256);
      var p := Pow256(w - 1);
      assert Le(w, v)[1..] == Le(w - 1, v / 256);
      ModSplit(v, p);
    }
  }

  lemma ModSplit(v: nat, p: nat)
    requires p >= 1
    ensures v % (256 * p) == v % 256 + 256 * ((v / 256) % p)
  {
    var q, r := v / 256, v % 256;
    var a, b := q / p, q % p;
    assert v == 256 * q + r && q == p * a + b;
    assert v == (256 * p) * a + (256 * b + r);
    DivUnique(v, 256 * p, a, 256 * b + r);
  }

  lemma DivUnique(v: nat, m: nat, a: nat, r: nat)
    requires m >= 1 && r < m && v == m * a + r
    ensures v % m == r
  {
    var q, s := v / m, v % m;
    assert v == m * q + s;
    assert q > a ==> m * q >= m * (a + 1);
    assert q < a ==> m * a >= m * (q + 1);
  }

  /** Byte k of the field is digit k in base 256: the low one first. */
  lemma {:induction false} LeByte(w: nat, v: nat, k: nat)
    requires k < w
    ensures Le(w, v)[k] == v / Pow256(k) % 256
  {
    if k > 0 {
      LeByte(w - 1, v / 256, k - 1);
      DivTwice(v, Pow256(k - 1));
    }
  }

  /** Every field is the encoding of what it is read as. */
  lemma {:induction false} LeOnto(s: seq<Byte>)
    ensures Le(|s|, FromLe(s)) == s
  {
    if s != [] {
      LeOnto(s[1..]);
      assert s == [s[0]] + s[1..];
    }
  }

  lemma DivTwice(v: nat, p: nat)
    requires p >= 1
    ensures v / 256 / p == v / (256 * p)
  {
    ModSplit(v, p);
    var a, b := v / 256 / p, v / (256 * p);
    assert v == 256 * (p * a + v / 256 % p) + v % 256;
    assert v == 256 * p * b + v % (256 * p);
    assert 256 * p * a == 256 * p * b;
    SameFactor(256 * p, a, b);
  }

  lemma SameFactor(m: nat, a: nat, b: nat)
    requires m >= 1 && m * a == m * b
    ensures a == b
  {
    assert a > b ==> m * a >= m * (b + 1);
    assert b > a ==> m * b >= m * (a + 1);
  }

  // ---- records ----------------------------------------------------------------------

  const SUPER_WIDTHS: seq<nat> := Eights(16)
  const INODE_WIDTHS: seq<nat> := [8, 4, 4, 8, 8, 8, 8, 8, 8] + Eights(NUM_DIRECT_BLOCKS + 1)
  const INDIRECT_WIDTHS: seq<nat> := Eights(NUM_BLKS_PER_IB)

  /** n fields of eight bytes each. */
  function Eights(n: nat): (r: seq<nat>)
    ensures |r| == n && forall k :: 0 <= k < n ==> r[k] == 8
  {
    seq(n, _ => 8)
  }

  function Size(ws: seq<nat>): nat {
    if ws == [] then 0 else Size(ws[..|ws| - 1]) + ws[|ws| - 1]
  }

  predicate Fits(ws: seq<nat>, vs: seq<nat>) {
    |ws| == |vs| && forall k :: 0 <= k < |ws| ==> vs[k] < Pow256(ws[k])
  }

  function Encode(ws: seq<nat>, vs: seq<nat>): (s: seq<Byte>)
    requires |ws| == |vs|
    ensures |s| == Size(ws)
  {
    if ws == [] then []
    else var n := |ws| - 1; Encode(ws[..n], vs[..n]) + Le(ws[n], vs[n])
  }

  function Decode(ws: seq<nat>, s: seq<Byte>): (vs: seq<nat>)
    requires |s| == Size(ws)
    ensures |vs| == |ws|
  {
    if ws == [] then []
    else
      var n := |ws| - 1;
      Decode(ws[..n], s[..Size(ws[..n])]) + [FromLe(s[Size(ws[..n])..])]
  }

  lemma {:induction false} RecordRoundTrip(ws: seq<nat>, vs: seq<nat>)
    requires Fits(ws, vs)
    ensures Decode(ws, Encode(ws, vs)) == vs
  {
    if ws != [] {
      var n := |ws| - 1;
      RecordRoundTrip(ws[..n], vs[..n]);
      LeRoundTrip(ws[n], vs[n]);
      var s := Encode(ws, vs);
      assert s[..Size(ws[..n])] == Encode(ws[..n], vs[..n]);
      assert s[Size(ws[..n])..] == Le(ws[n], vs[n]);
    }
  }

  /** Every record is the encoding of the fields read from it. */
  lemma {:induction false} RecordOnto(ws: seq<nat>, s: seq<Byte>)
    requires |s| == Size(ws)
    ensures Encode(ws, Decode(ws, s)) == s
  {
    hide Le, FromLe;
    if ws != [] {
      var n := |ws| - 1;
      var at := Size(ws[..n]);
      RecordOnto(ws[..n], s[..at]);
      LeOnto(s[at..]);
      assert Decode(ws, s)[..n] == Decode(ws[..n], s[..at]);
      assert s == s[..at] + s[at..];
    }
  }

  /** Field k lies after the fields before it, and nothing else lies there. */
  lemma {:induction false} FieldAt(ws: seq<nat>, vs: seq<nat>, k: nat)
    requires |ws| == |vs| && k < |ws|
    ensures Size(ws[..k]) + ws[k] <= Size(ws)
    ensures Encode(ws, vs)[Size(ws[..k])..Size(ws[..k]) + ws[k]] == Le(ws[k], vs[k])
    decreases |ws|
  {
    var n := |ws| - 1;
    if k < n {
      FieldAt(ws[..n], vs[..n], k);
      assert ws[..n][..k] == ws[..k];
      var s, at := Encode(ws[..n], vs[..n]), Size(ws[..k]);
      assert (s + Le(ws[n], vs[n]))[at..at + ws[k]] == s[at..at + ws[k]];
    }
  }

  lemma {:induction false} EvenSize(ws: seq<nat>, w: nat)
    requires forall k :: 0 <= k < |ws| ==> ws[k] == w
    ensures Size(ws) == w * |ws|
  {
    if ws != [] { EvenSize(ws[..|ws| - 1], w); }
  }

  lemma {:induction false} SizeSplit(a: seq<nat>, b: seq<nat>)
    ensures Size(a + b) == Size(a) + Size(b)
  {
    if b == [] {
      assert a + b == a;
    } else {
      var n := |b| - 1;
      assert (a + b)[..|a| + n] == a + b[..n];
      SizeSplit(a, b[..n]);
    }
  }

  /** The records fit where they are put. */
  lemma RecordSizes()
    ensures Size(SUPER_WIDTHS) == 128 && Size(INODE_WIDTHS) == 168 <= INODE_SZ && Size(INDIRECT_WIDTHS) == BLK_SZ
  {
    EvenSize(SUPER_WIDTHS, 8);
    EvenSize(INDIRECT_WIDTHS, 8);
    var head := [8, 4, 4, 8, 8, 8, 8, 8, 8];
    SizeSplit([8, 4, 4], [8, 8, 8, 8, 8, 8]);
    SizeSplit([8], [4, 4]);
    EvenSize([8], 8);
    EvenSize([4, 4], 4);
    EvenSize([8, 8, 8, 8, 8, 8], 8);
    assert [8] + [4, 4] == [8, 4, 4] && [8, 4, 4] + [8, 8, 8, 8, 8, 8] == head;
    var tail := Eights(NUM_DIRECT_BLOCKS + 1);
    EvenSize(tail, 8);
    SizeSplit(head, tail);
  }

  // ---- dentries ---------------------------------------------------------------------

  type Name = seq<Byte>

  function Zeros(n: nat): (s: seq<Byte>)
    ensures |s| == n && forall i :: 0 <= i < n ==> s[i] == 0
  {
    seq(n, _ => 0)
  }

  function EncodeDentry(ino: nat, name: Name): (s: seq<Byte>)
    requires |name| + 1 <= MAX_FILE_NAME_LEN
    ensures |s| == DIRENT_SZ
  {
    Le(8, ino) + name + Zeros(DIRENT_SZ - 8 - |name|)
  }

  /** std::string of a character array: the bytes before the first NUL. */
  function UpToNul(s: seq<Byte>): (r: seq<Byte>)
    ensures |r| <= |s| && r == s[..|r|] && 0 !in r && (|r| < |s| ==> s[|r|] == 0)
  {
    if s == [] || s[0] == 0 then [] else [s[0]] + UpToNul(s[1..])
  }

  function DecodeDentry(s: seq<Byte>): (nat, Name)
    requires |s| == DIRENT_SZ
  {
    (FromLe(s[..8]), UpToNul(s[8..]))
  }

  /** A dentry survives exactly when its number fits 64 bits and its name has no NUL in it. */
  lemma DentryRoundTrip(ino: nat, name: Name)
    requires |name| + 1 <= MAX_FILE_NAME_LEN
    ensures DecodeDentry(EncodeDentry(ino, name)) == (ino, name) <==> ino < Pow256(8) && 0 !in name
  {
    var s := EncodeDentry(ino, name);
    LeRoundTrip(8, ino);
    assert s[..8] == Le(8, ino);
    assert s[8..] == name + Zeros(DIRENT_SZ - 8 - |name|);
    if 0 !in name {
      NulStops(name, DIRENT_SZ - 8 - |name|);
    }
  }

  /** Byte k of a dentry's record: the number, low byte first, the name, zeros to the end. */
  lemma DentryByte(ino: nat, name: Name, k: nat)
    requires |name| + 1 <= MAX_FILE_NAME_LEN && k < DIRENT_SZ
    ensures EncodeDentry(ino, name)[k] ==
            if k < 8 then ino / Pow256(k) % 256 else if k - 8 < |name| then name[k - 8] else 0
  {
    if k < 8 {
      LeByte(8, ino, k);
    }
  }

  lemma {:induction false} NulStops(name: Name, k: nat)
    requires k >= 1 && 0 !in name
    ensures UpToNul(name + Zeros(k)) == name
  {
    if name == [] {
      assert (name + Zeros(k))[0] == 0;
    } else {
      assert name[0] != 0 && (name + Zeros(k))[1..] == name[1..] + Zeros(k);
      NulStops(name[1..], k);
    }
  }

  // ---- slots within a block ---------------------------------------------------------

  /** The buffer with bs copied over it at off. */
  function Patch(s: seq<Byte>, off: nat, bs: seq<Byte>): (r: seq<Byte>)
    requires off + |bs| <= |s|
    ensures |r| == |s|
  {
    s[..off] + bs + s[off + |bs|..]
  }

  /** Writing slot i is read back from slot i and leaves every other slot as it was. */
  lemma SlotFrame(s: seq<Byte>, slot: nat, i: nat, j: nat, bs: seq<Byte>, n: nat)
    requires |bs| <= slot && n <= slot && i * slot + slot <= |s| && j * slot + slot <= |s|
    ensures var r := Patch(s, i * slot, bs);
            && r[i * slot..i * slot + |bs|] == bs
            && (i != j ==> r[j * slot..j * slot + n] == s[j * slot..j * slot + n])
  {
    var r := Patch(s, i * slot, bs);
    if i < j {
      assert i * slot + slot <= j * slot by { Gap(slot, i, j); }
    } else if j < i {
      assert j * slot + slot <= i * slot by { Gap(slot, j, i); }
    }
    if i != j {
      assert r[j * slot..j * slot + n] == s[j * slot..j * slot + n];
    }
  }

  lemma {:induction false} Gap(slot: nat, i: nat, j: nat)
    requires i < j
    ensures i * slot + slot <= j * slot
  {
    if j > i + 1 {
      Gap(slot, i, j - 1);
    }
    assert j * slot == (j - 1) * slot + slot;
  }

  /** write_inode, then read_inode: the record written comes back, the neighbours' stay. */
  lemma InodeSlots(s: seq<Byte>, i: nat, j: nat, vs: seq<nat>)
    requires |s| == BLK_SZ && i < NUM_INODES_PER_BLOCK && j < NUM_INODES_PER_BLOCK && Fits(INODE_WIDTHS, vs)
    ensures Size(INODE_WIDTHS) <= INODE_SZ
    ensures var r := Patch(s, i * INODE_SZ, Encode(INODE_WIDTHS, vs));
            Decode(INODE_WIDTHS, r[j * INODE_SZ..j * INODE_SZ + Size(INODE_WIDTHS)]) ==
            if i == j then vs else Decode(INODE_WIDTHS, s[j * INODE_SZ..j * INODE_SZ + Size(INODE_WIDTHS)])
  {
    RecordSizes();
    RecordRoundTrip(INODE_WIDTHS, vs);
    SlotFrame(s, INODE_SZ, i, j, Encode(INODE_WIDTHS, vs), Size(INODE_WIDTHS));
  }

  lemma DentrySlots(s: seq<Byte>, i: nat, j: nat, ino: nat, name: Name)
    requires |s| == BLK_SZ && i < NUM_DIRENTS_PER_BLOCK && j < NUM_DIRENTS_PER_BLOCK
    requires ino < Pow256(8) && 0 !in name && |name| + 1 <= MAX_FILE_NAME_LEN
    ensures var r := Patch(s, i * DIRENT_SZ, EncodeDentry(ino, name));
            DecodeDentry(r[j * DIRENT_SZ..j * DIRENT_SZ + DIRENT_SZ]) ==
            if i == j then (ino, name) else DecodeDentry(s[j * DIRENT_SZ..j * DIRENT_SZ + DIRENT_SZ])
  {
    DentryRoundTrip(ino, name);
    SlotFrame(s, DIRENT_SZ, i, j, EncodeDentry(ino, name), DIRENT_SZ);
  }

  // ---- in place ---------------------------------------------------------------------

  /** memcpy into a block buffer. */
  method CopyIn(buf: array<Byte>, off: nat, bs: seq<Byte>)
    requires off + |bs| <= buf.Length
    modifies buf
    ensures buf[..] == Patch(old(buf[..]), off, bs)
  {
    var i := 0;
    while i < |bs|
      invariant i <= |bs|
      invariant forall k :: 0 <= k < i ==> buf[off + k] == bs[k]
      invariant forall k :: 0 <= k < buf.Length && !(off <= k < off + i) ==> buf[k] == old(buf[k])
    {
      buf[off + i] := bs[i];
      i := i + 1;
    }
    assert forall k :: off <= k < off + |bs| ==> buf[k] == bs[k - off];
  }

  lemma PatchTwice(s: seq<Byte>, off: nat, a: seq<Byte>, b: seq<Byte>)
    requires off + |a| + |b| <= |s|
    ensures Patch(Patch(s, off, a), off + |a|, b) == Patch(s, off, a + b)
  {
  }

  /** serialize of a superblock, an inode or an indirect block: field after field. */
  method Serialize(buf: array<Byte>, start: nat, ws: seq<nat>, vs: seq<nat>) returns (len: nat)
    requires |ws| == |vs| && start + Size(ws) <= buf.Length
    modifies buf
    ensures buf[..] == Patch(old(buf[..]), start, Encode(ws, vs)) && len == Size(ws)
  {
    var off, k := start, 0;
    while k < |ws|
      invariant k <= |ws| && off == start + Size(ws[..k]) && off <= buf.Length
      invariant buf[..] == Patch(old(buf[..]), start, Encode(ws[..k], vs[..k]))
    {
      SizeMonotone(ws, k + 1);
      assert ws[..k + 1][..k] == ws[..k] && vs[..k + 1][..k] == vs[..k];
      PatchTwice(old(buf[..]), start, Encode(ws[..k], vs[..k]), Le(ws[k], vs[k]));
      CopyIn(buf, off, Le(ws[k], vs[k]));
      off := off + ws[k];
      k := k + 1;
    }
    assert ws[..k] == ws && vs[..k] == vs;
    len := off - start;
  }

  lemma {:induction false} SizeMonotone(ws: seq<nat>, k: nat)
    requires k <= |ws|
    ensures Size(ws[..k]) <= Size(ws)
    decreases |ws|
  {
    if k < |ws| {
      SizeMonotone(ws[..|ws| - 1], k);
      assert ws[..|ws| - 1][..k] == ws[..k];
    } else {
      assert ws[..k] == ws;
    }
  }

  lemma DecodeNext(ws: seq<nat>, k: nat, front: seq<Byte>, field: seq<Byte>)
    requires k < |ws| && |front| == Size(ws[..k]) && |field| == ws[k]
    ensures Size(ws[..k + 1]) == |front + field|
    ensures Decode(ws[..k + 1], front + field) == Decode(ws[..k], front) + [FromLe(field)]
  {
    hide FromLe;
    assert ws[..k + 1][..k] == ws[..k];
    assert (front + field)[..|front|] == front && (front + field)[|front|..] == field;
  }

  /** deserialize: the fields in the same order. */
  method Deserialize(buf: array<Byte>, start: nat, ws: seq<nat>) returns (vs: seq<nat>)
    requires start + Size(ws) <= buf.Length
    ensures vs == Decode(ws, buf[start..start + Size(ws)])
  {
    vs := [];
    var off, k := start, 0;
    ghost var s := buf[..];
    assert ws[..0] == [] && Size(ws[..0]) == 0;
    hide Decode, FromLe, Size;
    while k < |ws|
      invariant k <= |ws| && off == start + Size(ws[..k]) && off <= |s|
      invariant vs == Decode(ws[..k], s[start..off])
    {
      SizeMonotone(ws, k + 1);
      SizeNext(ws, k);
      var field := buf[off..off + ws[k]];
      DecodeNext(ws, k, s[start..off], field);
      assert s[start..off + ws[k]] == s[start..off] + field;
      vs := vs + [FromLe(field)];
      off := off + ws[k];
      k := k + 1;
    }
    assert ws[..k] == ws && s[start..off] == buf[start..off];
  }

  lemma SizeNext(ws: seq<nat>, k: nat)
    requires k < |ws|
    ensures Size(ws[..k + 1]) == Size(ws[..k]) + ws[k]
  {
    assert ws[..k + 1][..k] == ws[..k];
  }

  method SerializeDentry(buf: array<Byte>, start: nat, ino: nat, name: Name) returns (len: nat)
    requires |name| + 1 <= MAX_FILE_NAME_LEN && start + DIRENT_SZ <= buf.Length
    modifies buf
    ensures buf[..] == Patch(old(buf[..]), start, EncodeDentry(ino, name)) && len == DIRENT_SZ
  {
    CopyIn(buf, start, Le(8, ino));
    PatchTwice(old(buf[..]), start, Le(8, ino), name);
    CopyIn(buf, start + 8, name);
    PatchTwice(old(buf[..]), start, Le(8, ino) + name, Zeros(DIRENT_SZ - 8 - |name|));
    CopyIn(buf, start + 8 + |name|, Zeros(DIRENT_SZ - 8 - |name|));
    len := DIRENT_SZ;
  }
}
