/** The client's dirty-chunk bookkeeping: cached writes mark chunks, a flush collects them. */
module WriteBack {
  import opened Layout

  const CHUNK: nat := 1048576

  /** Chunks a write of n bytes marks, whatever its offset within the first of them. */
  function Chunks(n: nat): nat {
    n / CHUNK + if n % CHUNK != 0 then 1 else 0
  }

  /** Those chunks. */
  function Marks(off: nat, n: nat): set<nat> {
    Ids(off / CHUNK, off / CHUNK + Chunks(n))
  }

  /** All dirty chunks of all handles; its size is the sum of the per-handle set sizes. */
  function All(dirty: map<nat, set<nat>>): (r: set<(nat, nat)>) {
    set fh, c | fh in dirty && c in dirty[fh] :: (fh, c)
  }

  lemma AllAdd(dirty: map<nat, set<nat>>, fh: nat, c: nat)
    requires fh in dirty && c !in dirty[fh]
    ensures |All(dirty[fh := dirty[fh] + {c}])| == |All(dirty)| + 1
  {
    assert All(dirty[fh := dirty[fh] + {c}]) == All(dirty) + {(fh, c)};
  }

  lemma AllDrop(dirty: map<nat, set<nat>>, fh: nat, c: nat)
    requires fh in dirty && c in dirty[fh]
    ensures |All(dirty[fh := dirty[fh] - {c}])| == |All(dirty)| - 1
  {
    assert All(dirty) == All(dirty[fh := dirty[fh] - {c}]) + {(fh, c)};
  }

  /** The chunks s made dirty for handle fh. */
  function With(dirty: map<nat, set<nat>>, fh: nat, s: set<nat>): (r: map<nat, set<nat>>)
    requires fh in dirty
    ensures fh in r && r[fh] == dirty[fh] + s
  {
    dirty[fh := dirty[fh] + s]
  }

  lemma WithNone(dirty: map<nat, set<nat>>, fh: nat, lo: nat)
    requires fh in dirty
    ensures With(dirty, fh, Ids(lo, lo)) == dirty
  {
    assert dirty[fh] + Ids(lo, lo) == dirty[fh];
  }

  lemma WithNext(dirty: map<nat, set<nat>>, fh: nat, lo: nat, i: nat)
    requires fh in dirty && lo <= i
    ensures With(With(dirty, fh, Ids(lo, i)), fh, {i}) == With(dirty, fh, Ids(lo, i + 1))
  {
    assert dirty[fh] + Ids(lo, i) + {i} == dirty[fh] + Ids(lo, i + 1);
  }

  // ---- the collecting loop on any dirty set -----------------------------------------

  /** Bytes of the file passed so far, and the chunks still dirty. */
  datatype Scan = Scan(done: nat, dirty: set<nat>)

  predicate Over(size: nat, s: Scan) {
    s.done >= size && s.dirty == {}
  }

  /** One turn of the loop. */
  function Turn(size: nat, s: Scan): Scan
    requires s.done <= size
    ensures Turn(size, s).done <= size
  {
    Scan(s.done + Min(CHUNK, size - s.done), s.dirty - {s.done / CHUNK})
  }

  function Turns(size: nat, s: Scan, n: nat): (r: Scan)
    requires s.done <= size
    ensures r.done <= size
    decreases n
  {
    if n == 0 || Over(size, s) then s else Turns(size, Turn(size, s), n - 1)
  }

  /** The loop is at a chunk boundary or at the end, and what is dirty lies ahead. */
  ghost predicate OnTrack(size: nat, s: Scan) {
    && s.done <= size && (s.done % CHUNK == 0 || s.done == size)
    && forall c :: c in s.dirty ==> s.done <= c * CHUNK <= size
  }

  lemma TurnKeeps(size: nat, s: Scan)
    requires OnTrack(size, s) && !Over(size, s)
    ensures OnTrack(size, Turn(size, s))
    ensures (size - Turn(size, s).done) + |Turn(size, s).dirty| < (size - s.done) + |s.dirty|
  {
    var t := Turn(size, s);
    var i := s.done / CHUNK;
    forall c | c in t.dirty ensures t.done <= c * CHUNK <= size {
      if s.done % CHUNK == 0 {
        assert s.done == i * CHUNK;
        assert c > i;
      }
    }
    if s.done == size {
      var c :| c in s.dirty;
      assert c * CHUNK == size;
      assert i == c;
      assert s.dirty == t.dirty + {i};
    } else {
      assert t.dirty <= s.dirty;
      Fewer(t.dirty, s.dirty);
    }
  }

  lemma Fewer(a: set<nat>, b: set<nat>)
    requires a <= b
    ensures |a| <= |b|
  {
    assert b == a + (b - a);
  }

  lemma {:induction false} Ends(size: nat, s: Scan, n: nat)
    requires OnTrack(size, s) && (size - s.done) + |s.dirty| <= n
    ensures Over(size, Turns(size, s, n))
    decreases n
  {
    if !Over(size, s) {
      TurnKeeps(size, s);
      Ends(size, Turn(size, s), n - 1);
    }
  }

  lemma {:induction false} NeverEnds(size: nat, s: Scan, c: nat, n: nat)
    requires s.done <= size && c in s.dirty && c * CHUNK > size
    ensures !Over(size, Turns(size, s, n))
    decreases n
  {
    if n > 0 {
      assert s.done / CHUNK < c;
      NeverEnds(size, Turn(size, s), c, n - 1);
    }
  }

  /** Collection comes to an end exactly when no dirty chunk starts past the end of the local file. */
  lemma EndsIff(size: nat, dirty: set<nat>)
    ensures (exists n: nat :: OverAfter(size, dirty, n)) <==> Within(dirty, size)
  {
    if Within(dirty, size) {
      Ends(size, Scan(0, dirty), size + |dirty|);
      assert OverAfter(size, dirty, size + |dirty|);
    } else {
      var c :| c in dirty && c * CHUNK > size;
      forall n: nat ensures !OverAfter(size, dirty, n) {
        NeverEnds(size, Scan(0, dirty), c, n);
      }
    }
  }

  /** A flush of a file of this size has collected everything after n turns. */
  predicate OverAfter(size: nat, dirty: set<nat>, n: nat) {
    Over(size, Turns(size, Scan(0, dirty), n))
  }

  /** No chunk starts past the end of a file of this size. */
  ghost predicate Within(dirty: set<nat>, size: nat) {
    forall c :: c in dirty ==> c * CHUNK <= size
  }

  // ---- the client's tables ----------------------------------------------------------

  class WriteBackCache {
    var dirty: map<nat, set<nat>>     // dirty_chunks
    var sizes: map<nat, nat>          // sizes of the local files
    var total: int                    // total_dirty_chunks

    /** The counter is the number of dirty chunks of all handles, whatever has happened. */
    ghost predicate Valid()
      reads this
    {
      total == |All(dirty)| && dirty.Keys == sizes.Keys
    }

    /** No dirty chunk of the handle starts past the end of its local file: a flush comes to an end. */
    ghost predicate Flushable(fh: nat)
      reads this
    {
      fh in dirty && fh in sizes && Within(dirty[fh], sizes[fh])
    }

    constructor ()
      ensures Valid() && dirty == map[]
    {
      dirty, sizes, total := map[], map[], 0;
      new;
      assert All(dirty) == {};
    }

    method Open(fh: nat, size: nat)
      requires Valid() && fh !in dirty
      modifies this
      ensures Valid() && dirty == old(dirty)[fh := {}] && sizes == old(sizes)[fh := size] && total == old(total)
      ensures Flushable(fh)
    {
      dirty, sizes := dirty[fh := {}], sizes[fh := size];
      assert All(dirty) == All(old(dirty));
    }

    /** A cached write of n bytes at off, of which pwrite puts down wb, or fails (wb < 0). Chunks are
        marked by n, each counted once. A write that is not short leaves the handle flushable; a short
        one does exactly when the last chunk it marks starts within the local file. */
    method CachedWrite(fh: nat, off: nat, n: nat, wb: int) returns (r: int)
      requires Valid() && fh in dirty && wb <= n
      modifies this
      ensures Valid() && r == (if wb < 0 then -1 else wb)
      ensures wb < 0 ==> dirty == old(dirty) && sizes == old(sizes)
      ensures wb >= 0 ==>
                && dirty == With(old(dirty), fh, Marks(off, n))
                && sizes == old(sizes)[fh := Extended(old(sizes)[fh], off, wb)]
      ensures wb == n && old(Flushable(fh)) ==> Flushable(fh)
      ensures wb >= 0 && old(Flushable(fh)) ==> (Flushable(fh) <==> n == 0 || LastMarked(off, n) * CHUNK <= sizes[fh])
    {
      assert fh in sizes;
      hide Valid, Marks, Within, Extended, LastMarked, With;
      if wb < 0 {
        return -1;
      }
      Extend(fh, off, wb);
      MarkAll(fh, off, n);
      if Within(old(dirty)[fh], old(sizes)[fh]) {
        MarkedWithin(old(dirty)[fh], off, n, old(sizes)[fh], wb);
      }
      return wb;
    }

    /** The marking loop: chunks that are dirty already are skipped. */
    method MarkAll(fh: nat, off: nat, n: nat)
      requires Valid() && fh in dirty
      modifies this`dirty, this`total
      ensures Valid() && dirty == With(old(dirty), fh, Marks(off, n))
    {
      hide Valid, Ids, With;
      var start, count := off / CHUNK, Chunks(n);
      var i := start;
      WithNone(dirty, fh, start);
      while i < start + count
        invariant start <= i <= start + count && fh in dirty && Valid()
        invariant dirty == With(old(dirty), fh, Ids(start, i))
      {
        WithNext(old(dirty), fh, start, i);
        Mark(fh, i);
        i := i + 1;
      }
    }

    /** pwrite makes the local file reach at least the end of what it put down. */
    method Extend(fh: nat, off: nat, wb: nat)
      requires Valid() && fh in dirty
      modifies this`sizes
      ensures Valid() && fh in old(sizes) && sizes == old(sizes)[fh := Extended(old(sizes)[fh], off, wb)]
    {
      sizes := sizes[fh := Extended(sizes[fh], off, wb)];
    }

    /** One chunk of a write becomes dirty, unless it is already. */
    method Mark(fh: nat, i: nat)
      requires Valid() && fh in dirty
      modifies this`dirty, this`total
      ensures Valid() && dirty == With(old(dirty), fh, {i})
    {
      if i in dirty[fh] {
        assert dirty[fh] + {i} == dirty[fh];
        return;
      }
      AllAdd(dirty, fh, i);
      dirty := dirty[fh := dirty[fh] + {i}];
      total := total + 1;
    }

    /** truncate cuts the local file and leaves the dirty chunks alone. */
    method Truncate(fh: nat, length: nat)
      requires Valid() && fh in dirty
      modifies this`sizes
      ensures Valid() && sizes == old(sizes)[fh := length]
      ensures Flushable(fh) <==> Within(dirty[fh], length)
    {
      sizes := sizes[fh := length];
    }

    /** A chunk that is about to be sent is dirty no longer. */
    method Take(fh: nat, i: nat)
      requires Valid() && fh in dirty && i in dirty[fh]
      modifies this`dirty, this`total
      ensures Valid() && dirty == old(dirty)[fh := old(dirty)[fh] - {i}]
      ensures |dirty[fh]| == |old(dirty)[fh]| - 1 && total == old(total) - 1
    {
      AllDrop(dirty, fh, i);
      assert |dirty[fh] - {i}| == |dirty[fh]| - 1;
      dirty := dirty[fh := dirty[fh] - {i}];
      total := total - 1;
    }

    /** The collecting loop of an explicit flush: every dirty chunk of the handle, in order. */
    method Collect(fh: nat) returns (listed: seq<nat>)
      requires Valid() && Flushable(fh)
      modifies this`dirty, this`total
      ensures Valid() && dirty == old(dirty)[fh := {}] && total == old(total) - |old(dirty)[fh]|
      ensures |listed| == |old(dirty)[fh]| && forall c :: c in listed <==> c in old(dirty)[fh]
      ensures forall i, j :: 0 <= i < j < |listed| ==> listed[i] < listed[j]
    {
      hide Valid;
      listed := [];
      var done: nat, size := 0, sizes[fh];
      while done < size || |dirty[fh]| > 0
        invariant done <= size && (done % CHUNK == 0 || done == size)
        invariant fh in dirty && Valid() && dirty == old(dirty)[fh := dirty[fh]] && dirty[fh] <= old(dirty)[fh]
        invariant forall c :: c in old(dirty)[fh] <==> c in dirty[fh] || c in listed
        invariant forall c :: c in dirty[fh] ==> done <= c * CHUNK <= size
        invariant dirty[fh] == {} || forall k :: 0 <= k < |listed| ==> listed[k] * CHUNK < done
        invariant forall i, j :: 0 <= i < j < |listed| ==> listed[i] < listed[j]
        invariant |listed| + |dirty[fh]| == |old(dirty)[fh]| && total == old(total) - |listed|
        decreases size - done + |dirty[fh]|
      {
        var bytes := Min(CHUNK, size - done);
        var i := done / CHUNK;
        NextDirty(dirty[fh], done, size);
        if i !in dirty[fh] {
          done := done + bytes;
          continue;
        }
        Take(fh, i);
        listed := listed + [i];
        done := done + bytes;
      }
      assert dirty[fh] == {};
    }

    /** Closing a handle whose chunks have been flushed. */
    method Release(fh: nat)
      requires Valid() && fh in dirty && dirty[fh] == {}
      modifies this
      ensures Valid() && dirty == old(dirty) - {fh} && total == old(total)
    {
      dirty, sizes := dirty - {fh}, sizes - {fh};
      assert All(dirty) == All(old(dirty));
    }
  }

  /** As many chunks are marked as n bytes fill, and no fewer would hold them. */
  lemma MarksCount(off: nat, n: nat)
    ensures n <= |Marks(off, n)| * CHUNK && forall k: nat :: n <= k * CHUNK ==> |Marks(off, n)| <= k
  {
    assert |Marks(off, n)| == Chunks(n) && (n > 0 ==> (Chunks(n) - 1) * CHUNK < n);
  }

  /** The chunks a write marks hold all the bytes it puts down if and only if its first byte does not lie further
      into a chunk than its length leaves free in the last one: they are counted by the length alone. In
      particular a write that starts a chunk marks all it touches. */
  lemma MarkedAllIff(off: nat, n: nat)
    ensures (forall b: nat :: off <= b < off + n ==> InMarked(off, n, b)) <==>
            n == 0 || off % CHUNK + (n - 1) % CHUNK < CHUNK
  {
    var first, last := off / CHUNK, off + n - 1;
    if n > 0 {
      assert (Chunks(n) - 1) * CHUNK + (n - 1) % CHUNK == n - 1;
    }
    if n == 0 || off % CHUNK + (n - 1) % CHUNK < CHUNK {
      forall b: nat | off <= b < off + n ensures InMarked(off, n, b) {
        assert b < (first + Chunks(n)) * CHUNK;
      }
    } else {
      assert off <= last < off + n && last >= (first + Chunks(n)) * CHUNK;
      assert !InMarked(off, n, last);
    }
  }

  /** Byte b of the file lies in a chunk that a write of n bytes at off marks. */
  predicate InMarked(off: nat, n: nat, b: nat) {
    b / CHUNK in Marks(off, n)
  }

  /** Two bytes written across a chunk boundary: chunk 0 becomes dirty and chunk 1, with the second byte, does
      not, so that no flush sends it. */
  method Straddle() returns (c: WriteBackCache, listed: seq<nat>)
    ensures fresh(c) && c.sizes == map[3 := CHUNK + 1] && c.dirty == map[3 := {}]
    ensures listed == [0] && !InMarked(CHUNK - 1, 2, CHUNK)
  {
    hide Ids;
    c := new WriteBackCache();
    c.Open(3, 0);
    var r := c.CachedWrite(3, CHUNK - 1, 2, 2);
    assert Chunks(2) == 1 && (CHUNK - 1) / CHUNK == 0;
    assert Ids(0, 1) == {0};
    assert c.dirty[3] == {0};
    listed := c.Collect(3);
    assert 0 in listed && |listed| == 1;
  }

  /** Two chunks written, then the file cut to nothing: chunk 1 stays dirty past the end. */
  method Strand() returns (c: WriteBackCache)
    ensures fresh(c) && c.Valid() && c.dirty == map[3 := {0, 1}] && c.sizes == map[3 := 0] && !c.Flushable(3)
  {
    hide Marks, Extended;
    TwoChunks();
    c := new WriteBackCache();
    c.Open(3, 0);
    var r := c.CachedWrite(3, 0, 2 * CHUNK, 2 * CHUNK);
    c.Truncate(3, 0);
    assert 1 in c.dirty[3];
  }

  lemma TwoChunks()
    ensures Marks(0, 2 * CHUNK) == {0, 1}
  {
    hide Ids;
    assert Chunks(2 * CHUNK) == 2;
    assert Ids(0, 2) == {0, 1};
  }

  /** Flushing in that state never comes to an end. */
  lemma StrandedForever(n: nat)
    ensures !OverAfter(0, {0, 1}, n)
  {
    NeverEnds(0, Scan(0, {0, 1}), 1, n);
  }

  /** Size of a local file once wb bytes have been put down at off: the least that keeps what was there and holds
      all that was put down. */
  function Extended(size: nat, off: nat, wb: nat): (r: nat)
    ensures size <= r && (wb > 0 ==> off + wb <= r)
    ensures size < r ==> off <= r - 1 < off + wb
  {
    if wb > 0 && off + wb > size then off + wb else size
  }

  /** The last chunk a write of n bytes at off marks. */
  function LastMarked(off: nat, n: nat): nat
    requires n > 0
  {
    off / CHUNK + Chunks(n) - 1
  }

  lemma MarkedWithin(was: set<nat>, off: nat, n: nat, size: nat, wb: nat)
    requires wb <= n && Within(was, size)
    ensures var now, size' := was + Marks(off, n), Extended(size, off, wb);
            && (Within(now, size') <==> n == 0 || LastMarked(off, n) * CHUNK <= size')
            && (wb == n ==> Within(now, size'))
  {
    var now, size' := was + Ids(off / CHUNK, off / CHUNK + Chunks(n)), Extended(size, off, wb);
    if n == 0 {
      assert now == was;
    } else {
      var last := LastMarked(off, n);
      MarkedInside(off, n, last);
      assert last in now;
      forall c | c in now && last * CHUNK <= size' ensures c * CHUNK <= size' {
        assert c in was || c <= last;
      }
    }
  }

  /** While something is dirty, the loop is at a chunk boundary or about to take the last chunk. */
  lemma NextDirty(dirty: set<nat>, done: nat, size: nat)
    requires done <= size && (done % CHUNK == 0 || done == size) && (done < size || |dirty| > 0)
    requires forall c :: c in dirty ==> done <= c * CHUNK <= size
    ensures forall c :: c in dirty ==> c >= done / CHUNK
    ensures forall c :: c in dirty && c != done / CHUNK ==> done + Min(CHUNK, size - done) <= c * CHUNK
    ensures done == size ==> done / CHUNK in dirty && dirty == {done / CHUNK}
  {
    if done == size {
      NonEmpty(dirty);
      var c :| c in dirty;
      assert c * CHUNK == size;
    }
  }

  lemma NonEmpty(s: set<nat>)
    ensures |s| > 0 ==> exists c :: c in s
  {
    assert s == {} || exists c :: c in s;
  }

  /** Every chunk a write marks starts before the write's last byte. */
  lemma MarkedInside(off: nat, n: nat, i: nat)
    requires off / CHUNK <= i < off / CHUNK + Chunks(n)
    ensures n > 0 && i * CHUNK < off + n
  {
  }
}
