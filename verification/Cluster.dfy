/** The cluster: virtual block numbers over several devices, with a write-back block cache. */
module Cluster {
  import opened Layout

  // ---- virtual to physical addresses ------------------------------------------------

  function Total(sizes: seq<nat>): nat {
    if sizes == [] then 0 else Total(sizes[..|sizes| - 1]) + sizes[|sizes| - 1]
  }

  /** Virtual number of block b of device d. */
  function Virtual(sizes: seq<nat>, d: nat, b: nat): nat
    requires d < |sizes|
  {
    Total(sizes[..d]) + b
  }

  datatype Place = Place(dev: nat, blk: nat)

  predicate OnCluster(sizes: seq<nat>, p: Place) {
    p.dev < |sizes| && p.blk < sizes[p.dev]
  }

  /** The device and block that addr falls on. */
  function Addr(sizes: seq<nat>, addr: nat): (r: Option<Place>) {
    if sizes == [] then None
    else
      var n := |sizes| - 1;
      var below := Total(sizes[..n]);
      if addr < below then Addr(sizes[..n], addr)
      else if addr < below + sizes[n] then Some(Place(n, addr - below))
      else None
  }

  /** Exactly the addresses below the total are mapped, and each to a block of a device. */
  lemma {:induction false} AddrDefined(sizes: seq<nat>, addr: nat)
    ensures Addr(sizes, addr).Some? <==> addr < Total(sizes)
    ensures Addr(sizes, addr).Some? ==>
              var p := Addr(sizes, addr).value; OnCluster(sizes, p) && Virtual(sizes, p.dev, p.blk) == addr
  {
    if sizes != [] {
      var n := |sizes| - 1;
      AddrDefined(sizes[..n], addr);
      if addr < Total(sizes[..n]) {
        var p := Addr(sizes[..n], addr).value;
        assert sizes[..n][..p.dev] == sizes[..p.dev];
      }
    }
  }

  /** Every block of every device has an address of its own. */
  lemma {:induction false} AddrOnto(sizes: seq<nat>, d: nat, b: nat)
    requires OnCluster(sizes, Place(d, b))
    ensures Virtual(sizes, d, b) < Total(sizes) && Addr(sizes, Virtual(sizes, d, b)) == Some(Place(d, b))
    decreases |sizes|
  {
    var n := |sizes| - 1;
    if d < n {
      assert sizes[..n][..d] == sizes[..d];
      AddrOnto(sizes[..n], d, b);
    }
  }

  /** Adding a device keeps the old mapping and appends the new blocks. */
  lemma AddDevice(sizes: seq<nat>, m: nat, addr: nat)
    ensures Total(sizes + [m]) == Total(sizes) + m
    ensures addr < Total(sizes) ==> Addr(sizes + [m], addr) == Addr(sizes, addr)
    ensures Total(sizes) <= addr < Total(sizes) + m ==>
              Addr(sizes + [m], addr) == Some(Place(|sizes|, addr - Total(sizes)))
  {
    assert (sizes + [m])[..|sizes|] == sizes;
    AddrDefined(sizes, addr);
  }

  /** getPhyBlockAddr: the loop over the devices; None where the source throws. */
  method GetPhyBlockAddr(sizes: seq<nat>, addr: nat) returns (r: Option<Place>)
    ensures r == Addr(sizes, addr)
  {
    var saddr, d := 0, 0;
    while d < |sizes|
      invariant d <= |sizes| && saddr == Total(sizes[..d]) <= addr
      invariant Addr(sizes[..d], addr) == None
    {
      assert sizes[..d + 1][..d] == sizes[..d];
      if saddr + sizes[d] > addr {
        Stable(sizes, d + 1, addr);
        return Some(Place(d, addr - saddr));
      }
      saddr := saddr + sizes[d];
      d := d + 1;
    }
    assert sizes[..d] == sizes;
    return None;
  }

  /** An address mapped by the first d devices is mapped the same way by all of them. */
  lemma {:induction false} Stable(sizes: seq<nat>, d: nat, addr: nat)
    requires d <= |sizes| && addr < Total(sizes[..d])
    ensures Addr(sizes, addr) == Addr(sizes[..d], addr)
    decreases |sizes|
  {
    if d < |sizes| {
      var n := |sizes| - 1;
      assert sizes[..n][..d] == sizes[..d];
      Stable(sizes[..n], d, addr);
      AddrDefined(sizes[..n], addr);
      AddrDefined(sizes[..d], addr);
    } else {
      assert sizes[..d] == sizes;
    }
  }

  // ---- contents ---------------------------------------------------------------------

  function Sizes<B>(store: seq<seq<B>>): (r: seq<nat>)
    ensures |r| == |store| && forall d :: 0 <= d < |r| ==> r[d] == |store[d]|
  {
    seq(|store|, d requires 0 <= d < |store| => |store[d]|)
  }

  function Count<B>(store: seq<seq<B>>): nat {
    Total(Sizes(store))
  }

  function PlaceOf<B>(store: seq<seq<B>>, v: nat): (p: Place)
    requires v < Count(store)
    ensures p.dev < |store| && p.blk < |store[p.dev]| && Addr(Sizes(store), v) == Some(p)
  {
    AddrDefined(Sizes(store), v);
    Addr(Sizes(store), v).value
  }

  function Fetch<B>(store: seq<seq<B>>, v: nat): B
    requires v < Count(store)
  {
    var p := PlaceOf(store, v);
    store[p.dev][p.blk]
  }

  function PutAt<B>(store: seq<seq<B>>, p: Place, x: B): (r: seq<seq<B>>)
    requires p.dev < |store| && p.blk < |store[p.dev]|
    ensures Sizes(r) == Sizes(store)
  {
    store[p.dev := store[p.dev][p.blk := x]]
  }

  /** Writing the place of one virtual block changes that block and no other. */
  lemma FetchPut<B>(store: seq<seq<B>>, v: nat, x: B, u: nat)
    requires v < Count(store) && u < Count(store)
    ensures var r := PutAt(store, PlaceOf(store, v), x);
            u < Count(r) && Fetch(r, u) == if u == v then x else Fetch(store, u)
  {
    AddrDefined(Sizes(store), v);
    AddrDefined(Sizes(store), u);
  }

  // ---- the block cache --------------------------------------------------------------

  /** A cached block remembers its device and physical id, so that it can be flushed. */
  datatype Entry<B> = Entry(data: B, dirty: bool, place: Place)

  type Cache<B> = map<nat, Entry<B>>

  /** Cached blocks are at home where they say, and clean ones equal what the device holds. */
  ghost predicate Coherent<B>(store: seq<seq<B>>, cache: Cache<B>) {
    forall v :: v in cache ==>
                  && v < Count(store) && cache[v].place == PlaceOf(store, v)
                  && (!cache[v].dirty ==> cache[v].data == Fetch(store, v))
  }

  /** What a reader of virtual block v must be given. */
  function Current<B>(store: seq<seq<B>>, cache: Cache<B>, v: nat): B
    requires v < Count(store)
  {
    if v in cache then cache[v].data else Fetch(store, v)
  }

  function Contents<B>(store: seq<seq<B>>, cache: Cache<B>): (r: seq<B>)
    ensures |r| == Count(store) && forall v :: 0 <= v < |r| ==> r[v] == Current(store, cache, v)
  {
    seq(Count(store), v requires 0 <= v < Count(store) => Current(store, cache, v))
  }

  /** What flush_blk does to the devices. */
  function Flushed<B>(store: seq<seq<B>>, e: Entry<B>): (r: seq<seq<B>>)
    requires e.place.dev < |store| && e.place.blk < |store[e.place.dev]|
    ensures Sizes(r) == Sizes(store)
  {
    if e.dirty then PutAt(store, e.place, e.data) else store
  }

  /** Dropping any cached block after flushing it to its own place loses nothing. */
  lemma EvictKeeps<B>(store: seq<seq<B>>, cache: Cache<B>, k: nat)
    requires Coherent(store, cache) && k in cache
    ensures var s := Flushed(store, cache[k]);
            Coherent(s, cache - {k}) && Contents(s, cache - {k}) == Contents(store, cache)
  {
    var s := Flushed(store, cache[k]);
    forall u | 0 <= u < Count(store)
      ensures Fetch(s, u) == if u == k then cache[k].data else Fetch(store, u)
    {
      FetchPut(store, k, cache[k].data, u);
    }
    assert Contents(s, cache - {k}) == Contents(store, cache);
  }

  lemma InsertSets<B>(store: seq<seq<B>>, cache: Cache<B>, v: nat, e: Entry<B>)
    requires Coherent(store, cache) && v < Count(store) && e.place == PlaceOf(store, v)
    requires !e.dirty ==> e.data == Fetch(store, v)
    ensures Coherent(store, cache[v := e]) && Contents(store, cache[v := e]) == Contents(store, cache)[v := e.data]
  {
    assert Contents(store, cache[v := e]) == Contents(store, cache)[v := e.data];
  }

  /** Writing to the device a block whose current value is already x. */
  lemma SyncKeeps<B>(store: seq<seq<B>>, cache: Cache<B>, v: nat, x: B)
    requires Coherent(store, cache) && v < Count(store) && v in cache && cache[v].data == x
    ensures var s := PutAt(store, PlaceOf(store, v), x);
            Coherent(s, cache) && Contents(s, cache) == Contents(store, cache)
  {
    var s := PutAt(store, PlaceOf(store, v), x);
    forall u | 0 <= u < Count(store) ensures Fetch(s, u) == if u == v then x else Fetch(store, u) {
      FetchPut(store, v, x, u);
    }
    assert Contents(s, cache) == Contents(store, cache);
  }

  lemma DirectSets<B>(store: seq<seq<B>>, v: nat, x: B)
    requires v < Count(store)
    ensures var s := PutAt(store, PlaceOf(store, v), x); Contents(s, map[]) == Contents(store, map[])[v := x]
  {
    var s := PutAt(store, PlaceOf(store, v), x);
    forall u | 0 <= u < Count(store) ensures Fetch(s, u) == if u == v then x else Fetch(store, u) {
      FetchPut(store, v, x, u);
    }
    assert Contents(s, map[]) == Contents(store, map[])[v := x];
  }

  lemma DeviceAppended<B>(store: seq<seq<B>>, cache: Cache<B>, blocks: seq<B>)
    requires Coherent(store, cache)
    ensures Coherent(store + [blocks], cache) && Contents(store + [blocks], cache) == Contents(store, cache) + blocks
  {
    var t := store + [blocks];
    assert Sizes(t) == Sizes(store) + [|blocks|];
    AddDevice(Sizes(store), |blocks|, 0);
    forall v | 0 <= v < Count(store) ensures PlaceOf(t, v) == PlaceOf(store, v) && Fetch(t, v) == Fetch(store, v) {
      AddDevice(Sizes(store), |blocks|, v);
    }
    forall v | Count(store) <= v < Count(t) ensures Fetch(t, v) == blocks[v - Count(store)] {
      AddDevice(Sizes(store), |blocks|, v);
    }
    assert Contents(t, cache) == Contents(store, cache) + blocks;
  }

  class VertBlockCluster<B(==)> {
    const capacity: nat
    const enabled: bool
    const readDirty: bool          // whether a block object starts out dirty
    var store: seq<seq<B>>
    var cache: Cache<B>

    ghost predicate Valid()
      reads this
    {
      Coherent(store, cache) && |cache| <= capacity && (!enabled ==> cache == map[])
    }

    ghost function Blocks(): seq<B>
      reads this
    {
      Contents(store, cache)
    }

    /** addBlockDevice: old blocks keep their numbers, the new device's follow. */
    method AddBlockDevice(blocks: seq<B>)
      requires Valid()
      modifies this`store
      ensures Valid() && Blocks() == old(Blocks()) + blocks
    {
      DeviceAppended(store, cache, blocks);
      store := store + [blocks];
    }

    /** insertCache: the block to flush, if one was evicted or replaced; any block may be the victim.
        A cache without room for a single block is an error. */
    method InsertCache(v: nat, e: Entry<B>) returns (ok: bool, out: Option<Entry<B>>)
      requires Valid() && enabled && v < Count(store) && e.place == PlaceOf(store, v)
      requires e.dirty || (v !in cache && e.data == Fetch(store, v))
      modifies this`cache
      ensures ok <==> v in old(cache) || capacity > 0
      ensures !ok ==> cache == old(cache)
      ensures ok ==> && |cache| <= capacity && v in cache && cache[v] == e
                     && (out.None? ==> cache == old(cache)[v := e] && v !in old(cache))
                     && (v in old(cache) ==> out == Some(old(cache)[v]))
                     && (out.Some? ==>
                           exists k :: k in old(cache) && out.value == old(cache)[k]
                                       && cache == (old(cache) - {k})[v := e])
    {
      if v !in cache {
        out := None;
        if |cache| >= capacity {
          if |cache| == 0 {
            return false, None;
          }
          assert cache.Keys != {};
          var k :| k in cache.Keys;
          out := Some(cache[k]);
          assert |cache - {k}| == |cache| - 1 by { assert (cache - {k}).Keys == cache.Keys - {k}; }
          cache := cache - {k};
        }
        cache := cache[v := e];
        return true, out;
      }
      out := Some(cache[v]);
      assert (cache - {v})[v := e] == cache[v := e];
      cache := cache[v := e];
      assert cache.Keys == old(cache).Keys;
      return true, out;
    }

    /** readBlock_helper: None when the address is not mapped or the cache cannot hold a block. */
    method ReadBlock(v: nat) returns (r: Option<B>)
      requires Valid()
      modifies this`store, this`cache
      ensures r.Some? <==> v < |old(Blocks())| && (enabled && v !in old(cache) ==> capacity > 0)
      ensures Valid() && Blocks() == old(Blocks()) && (r.Some? ==> r.value == old(Blocks())[v])
      ensures r.Some? && enabled ==> v in cache
    {
      var p := GetPhyBlockAddr(Sizes(store), v);
      AddrDefined(Sizes(store), v);
      if p.None? {
        return None;
      }
      if enabled && v in cache {
        return Some(cache[v].data);
      }
      var x := store[p.value.dev][p.value.blk];
      if enabled {
        var e := Entry(x, readDirty, p.value);
        var ok, out := InsertCache(v, e);
        if !ok {
          return None;
        }
        InsertSets(store, old(cache), v, e);
        assert Contents(old(store), old(cache))[v := x] == Contents(old(store), old(cache));
        if out.Some? {
          Settle(old(store), old(cache), cache, v, e, out.value);
          store := Flushed(store, out.value);
        }
      }
      return Some(x);
    }

    /** writeBlock_helper: with the cache on the device gets the new value only if the write is synchronous, and
        until then holds the one before. */
    method WriteBlock(v: nat, x: B, sync: bool) returns (ok: bool)
      requires Valid()
      modifies this`store, this`cache
      ensures ok <==> v < |old(Blocks())| && (enabled && v !in old(cache) ==> capacity > 0)
      ensures Valid() && Blocks() == if ok then old(Blocks())[v := x] else old(Blocks())
      ensures ok ==> Count(store) == |old(Blocks())|
                     && Fetch(store, v) == if sync || !enabled then x else old(Blocks())[v]
      ensures ok && enabled ==> v in cache && cache[v].data == x && cache[v].dirty
    {
      var p := GetPhyBlockAddr(Sizes(store), v);
      AddrDefined(Sizes(store), v);
      if p.None? {
        return false;
      }
      if enabled {
        var e := Entry(x, true, p.value);
        var out;
        ok, out := InsertCache(v, e);
        if !ok {
          return false;
        }
        InsertSets(store, old(cache), v, e);
        if out.Some? {
          Settle(old(store), old(cache), cache, v, e, out.value);
          store := Flushed(store, out.value);
        }
        if sync {
          SyncKeeps(store, cache, v, x);
          FetchPut(store, v, x, v);
        }
      } else {
        DirectSets(store, v, x);
        FetchPut(store, v, x, v);
      }
      if !enabled || sync {
        store := PutAt(store, p.value, x);
      }
      return true;
    }
  }

  // ---- batches, with the cache off --------------------------------------------------

  /** The contents after all blocks of a batch have been written. */
  function Overlay<B>(c: seq<B>, blks: map<nat, B>): (r: seq<B>)
    ensures |r| == |c| && forall v :: 0 <= v < |c| ==> r[v] == if v in blks then blks[v] else c[v]
  {
    seq(|c|, v requires 0 <= v < |c| => if v in blks then blks[v] else c[v])
  }

  /** The same blocks written one by one, in the order of keys. */
  function OneByOne<B>(c: seq<B>, blks: map<nat, B>, keys: seq<nat>): (r: seq<B>)
    requires forall i :: 0 <= i < |keys| ==> keys[i] in blks && keys[i] < |c|
    ensures |r| == |c|
  {
    if keys == [] then c else OneByOne(c, blks, keys[..|keys| - 1])[keys[|keys| - 1] := blks[keys[|keys| - 1]]]
  }

  /** A batch equals its blocks written one by one, whatever the order. */
  lemma {:induction false} BatchIsOneByOne<B>(c: seq<B>, blks: map<nat, B>, keys: seq<nat>)
    requires forall i :: 0 <= i < |keys| ==> keys[i] in blks && keys[i] < |c|
    ensures forall v :: 0 <= v < |c| ==> OneByOne(c, blks, keys)[v] == if v in keys then blks[v] else c[v]
    ensures (forall k :: k in blks ==> k in keys) ==> OneByOne(c, blks, keys) == Overlay(c, blks)
  {
    if keys != [] {
      var n := |keys| - 1;
      assert keys == keys[..n] + [keys[n]];
      BatchIsOneByOne(c, blks, keys[..n]);
    }
  }

  type Groups<B> = map<nat, map<nat, B>>

  /** The groups hold the blocks in `done`, each at its own device and physical id, and nothing else. */
  ghost predicate Grouped<B>(store: seq<seq<B>>, blks: map<nat, B>, done: set<nat>, groups: Groups<B>) {
    && (forall v :: v in done ==> v in blks && v < Count(store)
                                  && var p := PlaceOf(store, v);
                                  p.dev in groups && p.blk in groups[p.dev] && groups[p.dev][p.blk] == blks[v])
    && (forall d, b :: d in groups && b in groups[d] ==>
                         exists v :: v in done && v < Count(store) && PlaceOf(store, v) == Place(d, b))
  }

  lemma GroupMore<B>(store: seq<seq<B>>, blks: map<nat, B>, done: set<nat>, groups: Groups<B>, v: nat,
                     groups': Groups<B>)
    requires Grouped(store, blks, done, groups) && v in blks && v < Count(store)
    requires var p := PlaceOf(store, v);
             groups' == groups[p.dev := (if p.dev in groups then groups[p.dev] else map[])[p.blk := blks[v]]]
    ensures Grouped(store, blks, done + {v}, groups')
  {
    var p := PlaceOf(store, v);
    forall u | u in done + {v}
      ensures u in blks && u < Count(store)
      ensures var q := PlaceOf(store, u);
              q.dev in groups' && q.blk in groups'[q.dev] && groups'[q.dev][q.blk] == blks[u]
    {
      if u != v {
        AddrDefined(Sizes(store), u);
        AddrDefined(Sizes(store), v);
      }
    }
    forall d, b | d in groups' && b in groups'[d]
      ensures exists u :: u in done + {v} && u < Count(store) && PlaceOf(store, u) == Place(d, b)
    {
      if d == p.dev && b == p.blk {
        assert PlaceOf(store, v) == Place(d, b);
      } else {
        assert d in groups && b in groups[d];
        var u :| u in done && u < Count(store) && PlaceOf(store, u) == Place(d, b);
        assert u in done + {v};
      }
    }
  }

  /** One device's part of a batch. */
  function Row<B>(row: seq<B>, part: map<nat, B>): (r: seq<B>)
    ensures |r| == |row| && forall b :: 0 <= b < |row| ==> r[b] == if b in part then part[b] else row[b]
  {
    Overlay(row, part)
  }

  lemma GroupsStored<B>(store: seq<seq<B>>, store': seq<seq<B>>, blks: map<nat, B>, groups: Groups<B>)
    requires Grouped(store, blks, blks.Keys, groups) && |store'| == |store|
    requires forall d :: 0 <= d < |store| ==> store'[d] == if d in groups then Row(store[d], groups[d]) else store[d]
    ensures Sizes(store') == Sizes(store) && Contents(store', map[]) == Overlay(Contents(store, map[]), blks)
  {
    hide Grouped;
    assert Sizes(store') == Sizes(store);
    forall v | 0 <= v < Count(store) ensures Fetch(store', v) == if v in blks then blks[v] else Fetch(store, v) {
      StoredAt(store, store', blks, groups, v);
    }
    assert Contents(store', map[]) == Overlay(Contents(store, map[]), blks);
  }

  lemma StoredAt<B>(store: seq<seq<B>>, store': seq<seq<B>>, blks: map<nat, B>, groups: Groups<B>, v: nat)
    requires Grouped(store, blks, blks.Keys, groups) && Sizes(store') == Sizes(store) && v < Count(store)
    requires var d := PlaceOf(store, v).dev;
             d < |store'| && store'[d] == if d in groups then Row(store[d], groups[d]) else store[d]
    ensures Fetch(store', v) == if v in blks then blks[v] else Fetch(store, v)
  {
    var p := PlaceOf(store, v);
    if v !in blks && p.dev in groups && p.blk in groups[p.dev] {
      var u :| u in blks.Keys && u < Count(store) && PlaceOf(store, u) == Place(p.dev, p.blk);
      AddrDefined(Sizes(store), u);
      AddrDefined(Sizes(store), v);
      assert false;
    }
  }

  /** The first loop of writeBlocks and readBlocks: blocks sorted by device; None where it throws. */
  method GroupByDevice<B>(store: seq<seq<B>>, blks: map<nat, B>) returns (r: Option<Groups<B>>)
    ensures r.Some? <==> forall v :: v in blks ==> v < Count(store)
    ensures r.Some? ==> Grouped(store, blks, blks.Keys, r.value)
  {
    var groups: Groups<B> := map[];
    var todo := blks.Keys;
    while todo != {}
      invariant todo <= blks.Keys && Grouped(store, blks, blks.Keys - todo, groups)
      decreases todo
    {
      var v :| v in todo;
      var p := GetPhyBlockAddr(Sizes(store), v);
      AddrDefined(Sizes(store), v);
      if p.None? {
        return None;
      }
      var d := p.value.dev;
      ghost var before := groups;
      groups := groups[d := (if d in groups then groups[d] else map[])[p.value.blk := blks[v]]];
      GroupMore(store, blks, blks.Keys - todo, before, v, groups);
      assert blks.Keys - todo + {v} == blks.Keys - (todo - {v});
      todo := todo - {v};
    }
    assert blks.Keys - todo == blks.Keys;
    return Some(groups);
  }

  /** writeBlocks: one request to each device; an unmapped address throws before any is sent. */
  method WriteBlocks<B>(store: seq<seq<B>>, blks: map<nat, B>) returns (ok: bool, store': seq<seq<B>>)
    ensures ok <==> forall v :: v in blks ==> v < Count(store)
    ensures ok ==> Sizes(store') == Sizes(store) && Contents(store', map[]) == Overlay(Contents(store, map[]), blks)
    ensures !ok ==> store' == store
  {
    var groups := GroupByDevice(store, blks);
    if groups.None? {
      return false, store;
    }
    store' := store;
    var d := 0;
    while d < |store|
      invariant d <= |store| == |store'|
      invariant forall e :: 0 <= e < d ==>
                              store'[e] == if e in groups.value then Row(store[e], groups.value[e]) else store[e]
      invariant forall e :: d <= e < |store| ==> store'[e] == store[e]
    {
      if d in groups.value {
        store' := store'[d := Row(store'[d], groups.value[d])];
      }
      d := d + 1;
    }
    GroupsStored(store, store', blks, groups.value);
    ok := true;
  }

  /** What getBlocks fills in: the blocks of one device at the places listed. */
  ghost predicate Filled<B>(row: seq<B>, asked: map<nat, B>, got: map<nat, B>) {
    got.Keys == asked.Keys && forall b :: b in got ==> b < |row| && got[b] == row[b]
  }

  /** Every block asked for has been fetched to where the copying loop looks for it. */
  ghost predicate Fetched<B>(store: seq<seq<B>>, wanted: set<nat>, got: Groups<B>) {
    forall v :: v in wanted ==>
                  && v < Count(store)
                  && var p := PlaceOf(store, v);
                  p.dev in got && p.blk in got[p.dev] && got[p.dev][p.blk] == Fetch(store, v)
  }

  lemma AllFetched<B>(store: seq<seq<B>>, wanted: set<nat>, blks: map<nat, B>, groups: Groups<B>, got: Groups<B>)
    requires blks.Keys == wanted && Grouped(store, blks, wanted, groups)
    requires forall d :: 0 <= d < |store| && d in groups ==> d in got && Filled(store[d], groups[d], got[d])
    ensures Fetched(store, wanted, got)
  {
    forall v | v in wanted
      ensures v < Count(store)
      ensures var p := PlaceOf(store, v); p.dev in got && p.blk in got[p.dev] && got[p.dev][p.blk] == Fetch(store, v)
    {
      var p := PlaceOf(store, v);
      assert Filled(store[p.dev], groups[p.dev], got[p.dev]);
    }
  }

  lemma GroupInside<B>(store: seq<seq<B>>, blks: map<nat, B>, groups: Groups<B>, d: nat)
    requires Grouped(store, blks, blks.Keys, groups) && d in groups && d < |store|
    ensures forall b :: b in groups[d] ==> b < |store[d]|
  {
  }

  /** The copying loop. */
  method CopyBack<B>(store: seq<seq<B>>, wanted: set<nat>, got: Groups<B>) returns (r: map<nat, B>)
    requires Fetched(store, wanted, got)
    ensures r.Keys == wanted && forall v :: v in wanted ==> v < Count(store) && r[v] == Fetch(store, v)
  {
    r := map[];
    var todo := wanted;
    while todo != {}
      invariant todo <= wanted && r.Keys == wanted - todo
      invariant forall v :: v in r ==> v < Count(store) && r[v] == Fetch(store, v)
      decreases todo
    {
      var v :| v in todo;
      var p := PlaceOf(store, v);
      r, todo := r[v := got[p.dev][p.blk]], todo - {v};
    }
  }

  /** readBlocks: one request to each device for its share of the blocks, then each block copied from the
      place it was found at; an unmapped address throws before any request is sent. */
  method ReadBlocks<B>(store: seq<seq<B>>, wanted: set<nat>, blank: B) returns (r: Option<map<nat, B>>)
    ensures r.Some? <==> forall v :: v in wanted ==> v < Count(store)
    ensures r.Some? ==> r.value.Keys == wanted && forall v :: v in wanted ==> r.value[v] == Contents(store, map[])[v]
  {
    hide Grouped, Fetched, Filled, Count, PlaceOf;
    var empty := map v | v in wanted :: blank;
    assert empty.Keys == wanted;
    var groups := GroupByDevice(store, empty);
    if groups.None? {
      assert forall v :: v in empty <==> v in wanted;
      return None;
    }
    var got: Groups<B> := map[];
    var d := 0;
    while d < |store|
      invariant d <= |store|
      invariant forall e :: 0 <= e < d && e in groups.value ==> e in got && Filled(store[e], groups.value[e], got[e])
    {
      if d in groups.value {
        GroupInside(store, empty, groups.value, d);
        var row := GetBlocks(store[d], groups.value[d]);
        got := got[d := row];
      }
      d := d + 1;
    }
    AllFetched(store, wanted, empty, groups.value, got);
    var out := CopyBack(store, wanted, got);
    return Some(out);
  }

  /** bfsDevice::getBlocks on the listed blocks of one device. */
  method GetBlocks<B>(row: seq<B>, asked: map<nat, B>) returns (got: map<nat, B>)
    requires forall b :: b in asked ==> b < |row|
    ensures Filled(row, asked, got)
  {
    got := map b | b in asked :: row[b];
  }

  /** Putting e in for v and flushing the block that had to leave. */
  lemma Settle<B>(store: seq<seq<B>>, cache: Cache<B>, cache': Cache<B>, v: nat, e: Entry<B>, out: Entry<B>)
    requires Coherent(store, cache) && v < Count(store) && e.place == PlaceOf(store, v)
    requires e.dirty || (v !in cache && e.data == Fetch(store, v))
    requires exists k :: k in cache && out == cache[k] && cache' == (cache - {k})[v := e]
    requires v in cache ==> out == cache[v]
    ensures out.place.dev < |store| && out.place.blk < |store[out.place.dev]|
    ensures var s := Flushed(store, out);
            Coherent(s, cache') && Contents(s, cache') == Contents(store, cache)[v := e.data]
    ensures Count(Flushed(store, out)) == Count(store) && Fetch(Flushed(store, out), v) == Current(store, cache, v)
  {
    var k :| k in cache && out == cache[k] && cache' == (cache - {k})[v := e];
    EvictKeeps(store, cache, k);
    var s := Flushed(store, out);
    FetchPut(store, if v in cache then v else k, out.data, v);
    InsertSets(s, cache - {k}, v, e);
  }
}
